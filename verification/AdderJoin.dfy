/**
 Breaking a line inside open brackets: in a source that transpiles without a diagnosis, a space at bracket depth above
 zero may become a line feed and any indentation.  The trees stay the same except where the reader stands in a literal
 that the width of the gap is part of; there they change.
 */
module AdderJoin {
  import opened Wrappers
  import opened AdderForms
  import opened AdderBlanks
  import opened AdderBlocks
  import opened AdderComments
  import opened AdderCounts
  import opened AdderGaps
  import opened AdderHung
  import opened AdderOutput
  import opened AdderReader
  import opened AdderRoundTrip
  import opened AdderSource
  import opened AdderTwins
  import opened AdderWiden
  import P = AdderPrinter

  /** Does the logical line go on after `raw`? */
  predicate GoesOn(raw: string) {
    var d := Depth(Strip(raw, false), false);
    d.1 || d.0 > 0
  }

  /** The logical line's text after one more physical line, which starts a new one if `raw` was complete. */
  function Extend(raw: string, line: string): string {
    if !GoesOn(raw) then line
    else if Depth(Strip(raw, false), false).1 then raw + "\n" + line
    else raw + " " + SkipBlanks(line, false)
  }

  /** The text of the logical line being read, up to the part `a` that physical line `k` after `raw` starts with. */
  function TextUpTo(raw: string, rest: seq<string>, k: nat, a: string): string
    requires k < |rest|
    decreases k
  {
    if k == 0 then Extend(raw, a) else TextUpTo(Extend(raw, rest[0]), rest[1..], k - 1, a)
  }

  /** The text of the logical line being read, up to the part `a` that physical line `k` starts with. */
  function LogicalUpTo(lines: seq<string>, k: nat, a: string): string
    requires k < |lines|
  {
    if k == 0 then a else TextUpTo(lines[0], lines[1..], k - 1, a)
  }

  /** The whole text of the logical line that physical line `k` belongs to. */
  function WholeLine(lines: seq<string>, k: nat): string
    requires k < |lines|
    decreases |lines|
  {
    var j := Join(lines[0], lines[1..]);
    if k <= j.1 then j.0 else WholeLine(lines[1 + j.1..], k - 1 - j.1)
  }

  /** Is the line broken inside its own indentation? */
  predicate InIndent(a: string) {
    SkipBlanks(a, false) == ""
  }

  /** Of logical line `text`, what stands before the gap at which its last line is broken after `a`. */
  function BeforeGap(text: string, a: string): string {
    if InIndent(a) && text != "" then Front(text) else text
  }

  /** The gap at a space after `a`, with the text `c` behind the space, before and after the line is broken there. */
  function GapOf(a: string, c: string): (string, string) {
    if InIndent(a) then (" ", "  ") else (" " + c[..Indent(c)], " ")
  }

  /** Breaking logical line `s`, read up to `text`, after `a` leaves its meaning: its gap is no wider than before, or
      the reader stands in no literal that the gap belongs to. */
  predicate Harmless(s: string, text: string, a: string, c: string) {
    Alike(PlaceIn(s, BeforeGap(text, a)), GapOf(a, c).0, GapOf(a, c).1, SkipBlanks(c, false))
  }

  /** A single blank is always a place to break a line. */
  lemma OneBlankHarmless(s: string, text: string, a: string, c: string)
    requires !InIndent(a) && c != "" && !IsBlank(c[0])
    ensures Harmless(s, text, a, c)
  {
    hide PlaceIn, BeforeGap;
    assert c[..0] == "" && GapOf(a, c) == (" " + "", " ");
  }

  // ---- joining ----

  lemma {:induction false} SkipPart(a: string, u: string)
    requires SkipBlanks(a, false) != ""
    ensures SkipBlanks(a + u, false) == SkipBlanks(a, false) + u
  {
    if a != "" && IsBlank(a[0]) {
      SkipPart(a[1..], u);
      assert (a + u)[1..] == a[1..] + u;
    }
  }

  lemma {:induction false} SkipAll(a: string, u: string)
    requires SkipBlanks(a, false) == ""
    ensures SkipBlanks(a + u, false) == SkipBlanks(u, false)
  {
    if a == "" {
      assert a + u == u;
    } else {
      SkipAll(a[1..], u);
      assert (a + u)[1..] == a[1..] + u;
    }
  }

  /** The blanks that text starts with, and the rest. */
  lemma {:induction false} LeadBlanks(c: string)
    ensures Blanks(c[..Indent(c)]) && c == c[..Indent(c)] + SkipBlanks(c, false)
  {
    if c != "" && IsBlank(c[0]) {
      LeadBlanks(c[1..]);
      assert c[..Indent(c)] == [c[0]] + c[1..][..Indent(c[1..])];
      assert c == [c[0]] + c[1..];
    }
  }

  /** Two texts that differ at most in the width of one gap. */
  ghost predicate GapTexts(s: string, t: string, x: string, p: string, q: string, y: string) {
    s == x + (p + y) && t == x + (q + y) && Gaps(p, q) && InBrackets(x) && SkipBlanks(x, false) != ""
  }

  /** `y` continues `z`: what is added is set off by a blank or a line feed. */
  predicate GoesOnFrom(y: string, z: string) {
    z <= y && (|y| > |z| ==> y[|z|] in " \n")
  }

  /** Blanks open no bracket. */
  lemma {:induction false} BlankDepth(s: string)
    requires SkipBlanks(s, false) == ""
    ensures !InBrackets(s)
  {
    if s == "" {
      assert Strip("", false) == "";
    } else {
      BlankDepth(s[1..]);
      assert Strip(s, false) == [s[0]] + Strip(s[1..], false);
      assert ([s[0]] + Strip(s[1..], false))[1..] == Strip(s[1..], false);
    }
  }

  lemma BracketsSome(x: string)
    requires InBrackets(x)
    ensures SkipBlanks(x, false) != ""
  {
    if SkipBlanks(x, false) == "" {
      BlankDepth(x);
    }
  }

  /** A space and blanks after it, against one space. */
  lemma WideGap(x: string, ind: string, c: string)
    requires Blanks(ind) && InBrackets(x)
    ensures GapTexts(x + " " + c, x + " " + SkipBlanks(ind + c, false), x, " " + c[..Indent(c)], " ",
                     SkipBlanks(c, false))
  {
    hide InBrackets, SkipBlanks, Indent, Gaps;
    SkipGap(ind, c, false);
    LeadBlanks(c);
    LeadGap(c[..Indent(c)]);
    BracketsSome(x);
    var u, y := c[..Indent(c)], SkipBlanks(c, false);
    assert x + " " + (u + y) == x + (" " + u + y);
    assert x + " " + y == x + (" " + y);
  }

  lemma LeadGap(u: string)
    requires Blanks(u)
    ensures Gaps(" " + u, " ")
  {
  }

  /** The logical line after a first physical line, whole or broken. */
  lemma FirstGap(a: string, ind: string, c: string)
    requires Blanks(ind) && InBrackets(a)
    ensures !InIndent(a) && GoesOn(a)
    ensures GapTexts(a + " " + c, Extend(a, ind + c), a, GapOf(a, c).0, GapOf(a, c).1, SkipBlanks(c, false))
  {
    BracketsSome(a);
    hide Strip, Depth;
    WideGap(a, ind, c);
  }

  /** Extending by the whole line, or by the broken line in two goes. */
  lemma ExtendGap(raw: string, a: string, ind: string, c: string)
    requires GoesOn(raw) && Blanks(ind) && InBrackets(Extend(raw, a))
    ensures GoesOn(Extend(raw, a))
    ensures GapTexts(Extend(raw, a + " " + c), Extend(Extend(raw, a), ind + c), BeforeGap(Extend(raw, a), a),
                     GapOf(a, c).0, GapOf(a, c).1, SkipBlanks(c, false))
  {
    hide Strip, Depth, InBrackets, GapTexts, SkipBlanks, Indent;
    OpenGoesOn(Extend(raw, a));
    if InIndent(a) {
      BlankGap(raw, a, ind, c);
    } else {
      WideGap(Extend(raw, a), ind, c);
      ExtendOn(raw, a, c);
    }
  }

  lemma OpenGoesOn(text: string)
    requires InBrackets(text)
    ensures GoesOn(text) && !Depth(Strip(text, false), false).1
  {
    hide Strip, Depth;
  }

  lemma ExtendOn(raw: string, a: string, c: string)
    requires GoesOn(raw) && !InIndent(a)
    ensures Extend(raw, a + " " + c) == Extend(raw, a) + " " + c
  {
    hide Strip, Depth, SkipBlanks;
    var d := " " + c;
    assert a + " " + c == a + d && Extend(raw, a) + " " + c == Extend(raw, a) + d;
    SkipPart(a, d);
    Together(raw, "\n", a, d);
    Together(raw, " ", SkipBlanks(a, false), d);
  }

  lemma Together(s: string, t: string, u: string, v: string)
    ensures s + t + (u + v) == s + t + u + v
  {
  }

  /** A line broken inside its own indentation. */
  lemma BlankGap(raw: string, a: string, ind: string, c: string)
    requires GoesOn(raw) && InIndent(a) && Blanks(ind) && InBrackets(Extend(raw, a))
    ensures GapTexts(Extend(raw, a + " " + c), Extend(Extend(raw, a), ind + c), BeforeGap(Extend(raw, a), a), " ", "  ",
                     SkipBlanks(c, false))
  {
    hide Strip, Depth, SkipBlanks, InBrackets;
    BlankString(raw, a);
    BracketsSome(raw);
    BlankExtends(raw, a, ind, c);
    var y := SkipBlanks(c, false);
    Together(raw, " ", "", y);
    assert raw + " " + y == raw + (" " + y) && raw + " " + " " + y == raw + ("  " + y);
    assert Gaps(" ", "  ");
  }

  lemma BlankExtends(raw: string, a: string, ind: string, c: string)
    requires GoesOn(raw) && !Depth(Strip(raw, false), false).1 && InIndent(a) && Blanks(ind) && GoesOn(raw + " ")
    requires !Depth(Strip(raw + " ", false), false).1
    ensures BeforeGap(Extend(raw, a), a) == raw && Extend(raw, a + " " + c) == raw + " " + SkipBlanks(c, false)
    ensures Extend(Extend(raw, a), ind + c) == raw + " " + " " + SkipBlanks(c, false)
  {
    hide Strip, Depth, SkipBlanks;
    assert raw + " " + "" == raw + " " && Front(raw + " ") == raw;
    assert a + " " + c == a + (" " + c);
    SkipAll(a, " " + c);
    SkipOne(c);
    SkipGap(ind, c, false);
  }

  lemma SkipOne(c: string)
    ensures SkipBlanks(" " + c, false) == SkipBlanks(c, false)
  {
    assert (" " + c)[1..] == c;
  }

  /** A string literal goes on over blanks. */
  lemma BlankString(raw: string, a: string)
    requires InIndent(a) && GoesOn(raw) && InBrackets(Extend(raw, a))
    ensures !Depth(Strip(raw, false), false).1 && InBrackets(raw)
    ensures GoesOn(raw + " ") && !Depth(Strip(raw + " ", false), false).1
  {
    hide Strip, Depth;
    if Depth(Strip(raw, false), false).1 {
      InsideMeans(raw, false);
      InsideMeans(raw + "\n" + a, false);
      InsideOn(raw, false, a);
      InsideBlanks(a);
    }
    assert raw + " " + "" == raw + " ";
  }

  lemma {:induction false} InsideOn(x: string, inStr: bool, l: string)
    requires Inside(x, inStr)
    ensures Inside(x + "\n" + l, inStr) == Inside(l, true)
    decreases |x|
  {
    var s := x + "\n" + l;
    if x == "" {
      assert s == "\n" + l && s[1..] == l;
    } else if inStr && x == "\\" {
      assert s[2..] == l;
    } else {
      var n := if inStr then if x[0] == '\\' then 2 else 1
          else if x[0] == '#' && |x| >= 2 && x[1] == '\\' then 3 else 1;
      assert n <= |x| && s[0] == x[0] && (|x| >= 2 ==> s[1] == x[1]) && s[n..] == x[n..] + "\n" + l;
      InsideOn(x[n..], if n == 3 then false else if n == 2 then true else if inStr then x[0] != '"' else x[0] == '"',
          l);
    }
  }

  lemma {:induction false} InsideBlanks(a: string)
    requires InIndent(a)
    ensures Inside(a, true)
  {
    if a != "" {
      InsideBlanks(a[1..]);
    }
  }

  /** Joining goes on the same way, and keeps the gap. */
  lemma {:induction false} JoinGap(s: string, t: string, x: string, p: string, q: string, y: string, rest: seq<string>)
    returns (y': string)
    requires GapTexts(s, t, x, p, q, y)
    ensures Join(s, rest).1 == Join(t, rest).1 && GapTexts(Join(s, rest).0, Join(t, rest).0, x, p, q, y')
    ensures GoesOnFrom(y', y)
    decreases |rest|
  {
    hide Join, Depth, Strip, InBrackets;
    y' := y;
    SameDepth(x, p, q, y);
    if rest == [] || !GoesOn(s) {
      JoinStop(s, rest);
      JoinStop(t, rest);
    } else {
      JoinMore(s, rest);
      JoinMore(t, rest);
      var more := if Depth(Strip(s, false), false).1 then "\n" + rest[0] else " " + SkipBlanks(rest[0], false);
      assert Extend(s, rest[0]) == x + (p + (y + more)) && Extend(t, rest[0]) == x + (q + (y + more));
      y' := JoinGap(Extend(s, rest[0]), Extend(t, rest[0]), x, p, q, y + more, rest[1..]);
      assert (y + more)[|y|] == more[0];
    }
  }

  lemma JoinMore(raw: string, rest: seq<string>)
    requires rest != [] && GoesOn(raw)
    ensures Join(raw, rest) == (Join(Extend(raw, rest[0]), rest[1..]).0, Join(Extend(raw, rest[0]), rest[1..]).1 + 1)
  {
    hide Depth, Strip;
  }

  lemma JoinStop(raw: string, rest: seq<string>)
    requires rest == [] || !GoesOn(raw)
    ensures Join(raw, rest) == (raw, 0)
  {
    hide Depth, Strip;
  }

  lemma JoinTwice(a: string, ind: string, c: string, rest: seq<string>) returns (y: string)
    requires Blanks(ind) && InBrackets(a)
    ensures var j, i := Join(a + " " + c, rest), Join(a, [ind + c] + rest);
            && i.1 == j.1 + 1 && !InIndent(a)
            && GapTexts(j.0, i.0, BeforeGap(a, a), GapOf(a, c).0, GapOf(a, c).1, y)
            && GoesOnFrom(y, SkipBlanks(c, false))
  {
    hide Depth, Strip, Join, InBrackets;
    FirstGap(a, ind, c);
    JoinMore(a, [ind + c] + rest);
    assert ([ind + c] + rest)[1..] == rest;
    y := JoinGap(a + " " + c, Extend(a, ind + c), a, GapOf(a, c).0, GapOf(a, c).1, SkipBlanks(c, false), rest);
  }

  function Broken(rest: seq<string>, k: nat, a: string, ind: string, c: string): seq<string>
    requires k < |rest|
  {
    rest[..k] + [a, ind + c] + rest[k + 1..]
  }

  /** A logical line that takes in the broken line takes one physical line more, and has the same text but for the
      width of one gap. */
  lemma {:induction false} JoinBroken(raw: string, rest: seq<string>, k: nat, a: string, ind: string, c: string)
    returns (y: string)
    requires k < |rest| && rest[k] == a + " " + c && Blanks(ind)
    requires InBrackets(TextUpTo(raw, rest, k, a)) && Join(raw, rest).1 > k
    ensures var j, i := Join(raw, rest), Join(raw, Broken(rest, k, a, ind, c));
            && i.1 == j.1 + 1
            && GapTexts(j.0, i.0, BeforeGap(TextUpTo(raw, rest, k, a), a), GapOf(a, c).0, GapOf(a, c).1, y)
            && GoesOnFrom(y, SkipBlanks(c, false))
    decreases k
  {
    hide Join, InBrackets, GoesOn, Extend, GapTexts, BeforeGap, GapOf, GoesOnFrom;
    var new_ := Broken(rest, k, a, ind, c);
    if !GoesOn(raw) {
      JoinStop(raw, rest);
      assert false;
    } else {
      JoinMore(raw, rest);
      JoinMore(raw, new_);
      if k == 0 {
        assert new_[0] == a && new_[1..] == [ind + c] + rest[1..];
        ExtendGap(raw, a, ind, c);
        JoinMore(Extend(raw, a), [ind + c] + rest[1..]);
        assert ([ind + c] + rest[1..])[1..] == rest[1..];
        y := JoinGap(Extend(raw, a + " " + c), Extend(Extend(raw, a), ind + c), BeforeGap(Extend(raw, a), a),
            GapOf(a, c).0, GapOf(a, c).1, SkipBlanks(c, false), rest[1..]);
      } else {
        assert new_[0] == rest[0] && new_[1..] == Broken(rest[1..], k - 1, a, ind, c);
        y := JoinBroken(Extend(raw, rest[0]), rest[1..], k - 1, a, ind, c);
      }
    }
  }

  lemma ExtendStop(raw: string, line: string)
    requires !GoesOn(raw)
    ensures Extend(raw, line) == line
  {
  }

  /** A logical line that ends before physical line `k` does not see it. */
  lemma {:induction false} JoinBefore(raw: string, rest: seq<string>, other: seq<string>, k: nat, a: string)
    requires k < |rest| && k <= |other| && rest[..k] == other[..k] && k < |other|
    requires Join(raw, rest).1 <= k && !(Join(raw, rest).1 == |rest|)
    ensures Join(raw, other) == Join(raw, rest)
    ensures TextUpTo(raw, rest, k, a) == if Join(raw, rest).1 == k then a
              else TextUpTo(rest[Join(raw, rest).1], rest[Join(raw, rest).1 + 1..], k - Join(raw, rest).1 - 1, a)
    decreases k
  {
    hide Join, GoesOn, InBrackets, Extend;
    if !GoesOn(raw) {
      JoinStop(raw, rest);
      JoinStop(raw, other);
      ExtendStop(raw, a);
      ExtendStop(raw, rest[0]);
    } else {
      JoinMore(raw, rest);
      JoinMore(raw, other);
      assert k > 0;
      assert rest[..k][0] == rest[0] && other[..k][0] == other[0];
      assert rest[1..][..k - 1] == rest[..k][1..] && other[1..][..k - 1] == other[..k][1..];
      JoinBefore(Extend(raw, rest[0]), rest[1..], other[1..], k - 1, a);
    }
  }

  // ---- line numbers do not matter to the trees ----

  predicate Same(st: Source, u: Source) {
    SameEngine(st.engine, u.engine) && st.style == u.style && st.mixed == u.mixed
  }

  lemma StepSame(e: Engine, f: Engine, indent: nat, n: nat, m: nat, what: What)
    requires Good(e) && Good(f) && SameEngine(e, f) && Step(e, Line(indent, n, what)).err.None?
    ensures SameEngine(Step(e, Line(indent, n, what)), Step(f, Line(indent, m, what)))
  {
    hide Good;
    match what
    case Else => ArmSame(e, f, indent, n, m, None);
    case Elif(c) => ArmSame(e, f, indent, n, m, Some(c));
    case Stmt(node, block) =>
      PopGood(e, indent);
      PopGood(f, indent);
      if block {
        BlockSame(e.(stack := Pop(e.stack, indent)), f.(stack := Pop(f.stack, indent)), indent, n, m,
            LineNode(node, block).kids);
      } else {
        StackTop(e.(stack := Pop(e.stack, indent)));
      }
  }

  lemma ArmSame(e: Engine, f: Engine, indent: nat, n: nat, m: nat, cond: Option<Form>)
    requires Good(e) && Good(f) && SameEngine(e, f) && StepArm(e, indent, n, cond).err.None?
    ensures SameEngine(StepArm(e, indent, n, cond), StepArm(f, indent, m, cond))
  {
    StackTop(e);
    assert IfOk(e.arena, e.ifs[Column(indent)]);
    hide Good;
  }

  lemma BlockSame(e: Engine, f: Engine, indent: nat, n: nat, m: nat, kids: seq<Form>)
    requires Good(e) && Good(f) && SameEngine(e, f)
    ensures SameEngine(StepBlock(e, indent, n, kids), StepBlock(f, indent, m, kids))
  {
    StackTop(e);
    hide Good;
  }

  lemma CheckSame(st: Source, u: Source, lead: string, n: nat, m: nat)
    requires Good(st.engine) && Good(u.engine) && Same(st, u) && CheckIndent(st, lead, n).engine.err.None?
    ensures Same(CheckIndent(st, lead, n), CheckIndent(u, lead, m))
  {
    hide Good;
  }

  lemma ProcessSame(st: Source, u: Source, raw: string, n: nat, m: nat)
    requires Good(st.engine) && Good(u.engine) && Same(st, u) && Process(st, raw, n).engine.err.None?
    ensures Same(Process(st, raw, n), Process(u, raw, m))
  {
    hide Good, Strip, ReadBody, CheckIndent, Step, SameEngine;
    var text := Strip(raw, false);
    var ind := Indent(text);
    var body := TrimRight(text[ind..], true);
    if body != "" {
      var st1 := CheckIndent(st, text[..ind], n);
      if st1.engine.err.Some? {
        StepErr(st1.engine, Line(ind, n, ReadBody(body)));
      }
      CheckSame(st, u, text[..ind], n, m);
      var u1 := CheckIndent(u, text[..ind], m);
      StepSame(st1.engine, u1.engine, ind, n, m, ReadBody(body));
    }
  }

  lemma LogicalSame(st: Source, u: Source, raw: string, n: nat, m: nat)
    requires Good(st.engine) && Good(u.engine) && Same(st, u) && Logical(st, raw, n).engine.err.None?
    ensures Same(Logical(st, raw, n), Logical(u, raw, m))
  {
    hide Good, Strip, Depth, Process;
    var d := Depth(Strip(raw, false), false);
    if !d.1 && d.0 == 0 {
      ProcessSame(st, u, raw, n, m);
    }
  }

  lemma {:induction false} ReadErr(st: Source, lines: seq<string>, n: nat)
    requires Good(st.engine) && st.engine.err.Some?
    ensures ReadLines(st, lines, n).engine.err.Some?
    decreases |lines|
  {
    hide Good, Logical, Join;
    if lines != [] {
      var j := Join(lines[0], lines[1..]);
      LogicalErr(st, j.0, n);
      ReadErr(Logical(st, j.0, n), lines[1 + j.1..], n + 1 + j.1);
    }
  }

  /** One logical line off the front. */
  lemma ReadFirst(st: Source, lines: seq<string>, n: nat)
    requires Good(st.engine) && lines != []
    ensures var j := Join(lines[0], lines[1..]);
            && j.1 <= |lines| - 1 && Good(Logical(st, j.0, n).engine)
            && ReadLines(st, lines, n) == ReadLines(Logical(st, j.0, n), lines[1 + j.1..], n + 1 + j.1)
            && (ReadLines(st, lines, n).engine.err.None? ==> Logical(st, j.0, n).engine.err.None?)
  {
    hide Good, Logical, Join;
    var j := Join(lines[0], lines[1..]);
    if Logical(st, j.0, n).engine.err.Some? {
      ReadErr(Logical(st, j.0, n), lines[1 + j.1..], n + 1 + j.1);
    }
  }

  lemma {:induction false} ReadSame(st: Source, u: Source, lines: seq<string>, n: nat, m: nat)
    requires Good(st.engine) && Good(u.engine) && Same(st, u) && ReadLines(st, lines, n).engine.err.None?
    ensures Same(ReadLines(st, lines, n), ReadLines(u, lines, m))
    decreases |lines|
  {
    hide Good, Logical, Join, Same, ReadLines;
    if lines == [] {
      ReadNone(st, n);
      ReadNone(u, m);
    } else {
      var j := Join(lines[0], lines[1..]);
      ReadFirst(st, lines, n);
      ReadFirst(u, lines, m);
      LogicalSame(st, u, j.0, n, m);
      ReadSame(Logical(st, j.0, n), Logical(u, j.0, m), lines[1 + j.1..], n + 1 + j.1, m + 1 + j.1);
    }
  }

  // ---- a difference stays ----

  ghost predicate Twin(st: Source, u: Source, s: Spot) {
    TwinAt(st.engine, u.engine, s) && st.style == u.style && st.mixed == u.mixed
  }

  lemma CheckTwin(st: Source, u: Source, s: Spot, lead: string, n: nat, m: nat)
    requires Good(st.engine) && Good(u.engine) && Twin(st, u, s) && CheckIndent(st, lead, n).engine.err.None?
    ensures Twin(CheckIndent(st, lead, n), CheckIndent(u, lead, m), s)
  {
    hide Good;
    if CheckIndent(st, lead, n).engine == st.engine {
    } else {
      StyleFails(st, lead, n, "indentation mixes tabs and spaces; pick one");
      assert false;
    }
  }

  lemma ProcessTwin(st: Source, u: Source, s: Spot, raw: string, n: nat, m: nat)
    requires Good(st.engine) && Good(u.engine) && Twin(st, u, s) && Process(st, raw, n).engine.err.None?
    ensures Twin(Process(st, raw, n), Process(u, raw, m), s)
  {
    hide Good, Strip, ReadBody, CheckIndent, Step, TwinAt;
    var text := Strip(raw, false);
    var ind := Indent(text);
    var body := TrimRight(text[ind..], true);
    if body != "" {
      var st1, u1 := CheckIndent(st, text[..ind], n), CheckIndent(u, text[..ind], m);
      if st1.engine.err.Some? {
        StepErr(st1.engine, Line(ind, n, ReadBody(body)));
      }
      CheckTwin(st, u, s, text[..ind], n, m);
      StepTwin(st1.engine, u1.engine, s, ind, n, m, ReadBody(body));
    }
  }

  lemma LogicalTwin(st: Source, u: Source, s: Spot, raw: string, n: nat, m: nat)
    requires Good(st.engine) && Good(u.engine) && Twin(st, u, s) && Logical(st, raw, n).engine.err.None?
    ensures Twin(Logical(st, raw, n), Logical(u, raw, m), s)
  {
    hide Good, Strip, Depth, Process, Twin;
    var d := Depth(Strip(raw, false), false);
    if !d.1 && d.0 == 0 {
      ProcessTwin(st, u, s, raw, n, m);
    }
  }

  lemma {:induction false} ReadTwin(st: Source, u: Source, s: Spot, lines: seq<string>, n: nat, m: nat)
    requires Good(st.engine) && Good(u.engine) && Twin(st, u, s) && ReadLines(st, lines, n).engine.err.None?
    ensures Twin(ReadLines(st, lines, n), ReadLines(u, lines, m), s)
    decreases |lines|
  {
    hide Good, Logical, Join, Twin, ReadLines;
    if lines == [] {
      ReadNone(st, n);
      ReadNone(u, m);
    } else {
      var j := Join(lines[0], lines[1..]);
      ReadFirst(st, lines, n);
      ReadFirst(u, lines, m);
      LogicalTwin(st, u, s, j.0, n, m);
      ReadTwin(Logical(st, j.0, n), Logical(u, j.0, m), s, lines[1 + j.1..], n + 1 + j.1, m + 1 + j.1);
    }
  }

  // ---- the broken source ----

  lemma BrokenTail(lines: seq<string>, k: nat, n: nat, a: string, ind: string, c: string)
    requires n <= k < |lines|
    ensures Broken(lines, k, a, ind, c)[n..] == Broken(lines[n..], k - n, a, ind, c)
  {
    assert lines[n..][..k - n] == lines[..k][n..];
    assert lines[n..][k - n + 1..] == lines[k + 1..];
  }

  /** The same source state, or one with a difference. */
  ghost predicate Goes(st: Source, u: Source, same: bool, s: Spot) {
    if same then Same(st, u) else Twin(st, u, s)
  }

  /** Two logical lines that differ in the width of a gap. */
  lemma GapGoes(st: Source, u: Source, s: string, t: string, x: string, p: string, q: string, y: string, n: nat, m: nat)
      returns (spot: Spot)
    requires Good(st.engine) && Good(u.engine) && Same(st, u) && Hung(st.engine) && GapTexts(s, t, x, p, q, y)
    requires Logical(st, s, n).engine.err.None?
    ensures Goes(Logical(st, s, n), Logical(u, t, m), Alike(PlaceIn(s, x), p, q, y), spot)
  {
    hide Good, Strip, Depth, InBrackets, ReadBody, Indent, TrimRight, Alike, PlaceIn, CheckIndent, Step, Hung, TwinAt,
        SameEngine, WhatUnlike;
    assert Depth(Strip(s, false), false) == (0, false);
    LogicalGap(x, p, q, y);
    var ind := Indent(Strip(s, false));
    var lead := Strip(s, false)[..ind];
    var st1, u1 := CheckIndent(st, lead, n), CheckIndent(u, lead, m);
    var w, v := ReadBody(BodyOf(s)), ReadBody(BodyOf(t));
    if st1.engine.err.Some? {
      StepErr(st1.engine, Line(ind, n, w));
    }
    CheckSame(st, u, lead, n, m);
    if Alike(PlaceIn(s, x), p, q, y) {
      StepSame(st1.engine, u1.engine, ind, n, m, w);
      spot := InRoots(0);
    } else {
      CheckHung(st, lead, n);
      spot := StepDiffers(st1.engine, u1.engine, ind, n, m, w, v);
    }
  }

  lemma CheckHung(st: Source, lead: string, n: nat)
    requires Good(st.engine) && Hung(st.engine) && CheckIndent(st, lead, n).engine.err.None?
    ensures Hung(CheckIndent(st, lead, n).engine)
  {
    StyleFails(st, lead, n, "indentation mixes tabs and spaces; pick one");
  }

  /** Nothing that is added behind the gap is a bracket next to it. */
  lemma GapFirst(at: Place, p: string, q: string, y: string, z: string)
    requires GoesOnFrom(y, z)
    ensures Alike(at, p, q, y) <==> Alike(at, p, q, z)
  {
  }

  /** Where the broken line is read: in the first logical line, or in what follows it. */
  lemma {:induction false} ReadBroken(st: Source, u: Source, lines: seq<string>, k: nat, a: string, ind: string,
      c: string, n: nat, m: nat) returns (spot: Spot)
    requires Good(st.engine) && Good(u.engine) && Same(st, u) && Hung(st.engine)
    requires k < |lines| && lines[k] == a + " " + c && Blanks(ind)
    requires InBrackets(LogicalUpTo(lines, k, a)) && ReadLines(st, lines, n).engine.err.None?
    ensures Goes(ReadLines(st, lines, n), ReadLines(u, Broken(lines, k, a, ind, c), m),
                 Harmless(WholeLine(lines, k), LogicalUpTo(lines, k, a), a, c), spot)
    decreases |lines|
  {
    hide Good, Logical, Join, Same, Goes, ReadLines, InBrackets, TextUpTo, GapTexts, Hung, GoesOnFrom, Harmless,
        BeforeGap, GapOf;
    var new_ := Broken(lines, k, a, ind, c);
    var j := Join(lines[0], lines[1..]);
    ReadFirst(st, lines, n);
    ReadFirst(u, new_, m);
    if k == 0 {
      var y := JoinTwice(a, ind, c, lines[1..]);
      assert new_[0] == a && new_[1..] == [ind + c] + lines[1..];
      assert new_[2 + j.1..] == lines[1 + j.1..];
      spot := GapRead(st, u, lines, new_, a, c, a, y, n, m);
    } else {
      assert new_[0] == lines[0] && new_[1..] == Broken(lines[1..], k - 1, a, ind, c);
      if j.1 > k - 1 {
        var y := JoinBroken(lines[0], lines[1..], k - 1, a, ind, c);
        assert new_[2 + j.1..] == lines[1 + j.1..];
        spot := GapRead(st, u, lines, new_, a, c, TextUpTo(lines[0], lines[1..], k - 1, a), y, n, m);
      } else {
        LogicalSame(st, u, j.0, n, m);
        LogicalHung(st, j.0, n);
        BrokenLater(lines, k, a, ind, c);
        var rest := lines[1 + j.1..];
        spot := ReadBroken(Logical(st, j.0, n), Logical(u, j.0, m), rest, k - 1 - j.1, a, ind, c, n + 1 + j.1,
            m + 1 + j.1);
      }
    }
  }

  /** A line broken behind the first logical line. */
  lemma BrokenLater(lines: seq<string>, k: nat, a: string, ind: string, c: string)
    requires k < |lines| && Join(lines[0], lines[1..]).1 < k
    ensures var n, new_ := 1 + Join(lines[0], lines[1..]).1, Broken(lines, k, a, ind, c);
            && Join(new_[0], new_[1..]) == Join(lines[0], lines[1..]) && new_[0] == lines[0]
            && new_[n..] == Broken(lines[n..], k - n, a, ind, c) && lines[n..][k - n] == lines[k]
            && LogicalUpTo(lines[n..], k - n, a) == LogicalUpTo(lines, k, a)
  {
    hide Join, TextUpTo;
    var new_ := Broken(lines, k, a, ind, c);
    var j := Join(lines[0], lines[1..]).1;
    assert new_[0] == lines[0] && new_[1..] == Broken(lines[1..], k - 1, a, ind, c);
    assert lines[1..][..k - 1] == new_[1..][..k - 1];
    JoinBefore(lines[0], lines[1..], new_[1..], k - 1, a);
    var rest := lines[1 + j..];
    assert rest[0] == lines[1..][j] && rest[1..] == lines[1..][j + 1..];
    BrokenTail(lines, k, 1 + j, a, ind, c);
  }

  /** The first logical line has the gap, and the same lines follow. */
  lemma GapRead(st: Source, u: Source, lines: seq<string>, new_: seq<string>, a: string, c: string, text: string,
      y: string, n: nat, m: nat) returns (spot: Spot)
    requires Good(st.engine) && Good(u.engine) && Same(st, u) && Hung(st.engine) && lines != [] && new_ != []
    requires var j, i := Join(lines[0], lines[1..]), Join(new_[0], new_[1..]);
             && i.1 == j.1 + 1 && 1 + j.1 <= |lines| && 1 + i.1 <= |new_| && new_[1 + i.1..] == lines[1 + j.1..]
             && GapTexts(j.0, i.0, BeforeGap(text, a), GapOf(a, c).0, GapOf(a, c).1, y)
             && GoesOnFrom(y, SkipBlanks(c, false))
    requires ReadLines(st, lines, n).engine.err.None?
    ensures Goes(ReadLines(st, lines, n), ReadLines(u, new_, m),
                 Harmless(Join(lines[0], lines[1..]).0, text, a, c), spot)
  {
    hide Good, Logical, Join, Same, Twin, ReadLines, GapTexts, Hung, GoesOnFrom, Alike, PlaceIn, BeforeGap, GapOf;
    var j, i := Join(lines[0], lines[1..]), Join(new_[0], new_[1..]);
    var x, g := BeforeGap(text, a), GapOf(a, c);
    ReadFirst(st, lines, n);
    ReadFirst(u, new_, m);
    spot := GapGoes(st, u, j.0, i.0, x, g.0, g.1, y, n, m);
    GapFirst(PlaceIn(j.0, x), g.0, g.1, y, SkipBlanks(c, false));
    if Harmless(j.0, text, a, c) {
      ReadSame(Logical(st, j.0, n), Logical(u, i.0, m), lines[1 + j.1..], n + 1 + j.1, m + 1 + i.1);
    } else {
      ReadTwin(Logical(st, j.0, n), Logical(u, i.0, m), spot, lines[1 + j.1..], n + 1 + j.1, m + 1 + i.1);
    }
  }

  lemma {:induction false} ReadHung(st: Source, lines: seq<string>, n: nat)
    requires Good(st.engine) && Hung(st.engine)
    ensures Hung(ReadLines(st, lines, n).engine)
    decreases |lines|
  {
    hide Good, Logical, Join, Hung, ReadLines;
    if lines == [] {
      ReadNone(st, n);
    } else {
      var j := Join(lines[0], lines[1..]);
      ReadFirst(st, lines, n);
      LogicalHung(st, j.0, n);
      ReadHung(Logical(st, j.0, n), lines[1 + j.1..], n + 1 + j.1);
    }
  }

  lemma GoesFinish(st: Source, u: Source, same: bool, s: Spot)
    requires Good(st.engine) && Good(u.engine) && Hung(st.engine) && Goes(st, u, same, s)
    ensures u.engine.err.None? && (Finish(u.engine) == Finish(st.engine) <==> same)
  {
    hide Good, Hung, TwinAt, Finish;
    if same {
      FinishSame(st.engine, u.engine);
    } else {
      TwinsFinish(st.engine, u.engine, s);
      TwinFrame(st.engine, u.engine, s);
    }
  }

  lemma FinishSame(e: Engine, f: Engine)
    requires Good(e) && Good(f) && SameEngine(e, f)
    ensures Finish(e) == Finish(f)
  {
    hide Collapse;
    assert e.arena == f.arena && e.wraps == f.wraps && e.roots == f.roots;
  }

  /** In a source without diagnoses, breaking a line at a space inside brackets raises no diagnosis, and gives the same
      forms exactly where it is harmless. */
  lemma BreakSource(lines: seq<string>, k: nat, a: string, ind: string, c: string)
    requires (forall l | l in lines :: OneLine(l)) && OneLine(ind)
    requires k < |lines| && lines[k] == a + " " + c && Blanks(ind)
    requires InBrackets(LogicalUpTo(lines, k, a)) && Transpile(P.JoinLines(lines)).err.None?
    ensures var whole, broken := Transpile(P.JoinLines(lines)), Transpile(P.JoinLines(Broken(lines, k, a, ind, c)));
            && broken.err.None?
            && (broken.forms == whole.forms <==> Harmless(WholeLine(lines, k), LogicalUpTo(lines, k, a), a, c))
  {
    hide Good, ReadLines, InBrackets, LogicalUpTo, Blanks, OneLine, SplitLines, Finish, Hung, Goes, Harmless,
        P.JoinLines;
    var new_ := Broken(lines, k, a, ind, c);
    assert lines[k] in lines;
    PartsOneLine(a, ind, c);
    forall l | l in new_ ensures OneLine(l) {
      assert l in lines[..k] || l == a || l == ind + c || l in lines[k + 1..];
    }
    SplitJoined(lines);
    SplitJoined(new_);
    AdderSource.StartGood();
    StartHung();
    var st := Source(Start(), None, false);
    var spot := ReadBroken(st, st, lines, k, a, ind, c, 1, 1);
    ReadHung(st, lines, 1);
    GoesFinish(ReadLines(st, lines, 1), ReadLines(st, new_, 1),
               Harmless(WholeLine(lines, k), LogicalUpTo(lines, k, a), a, c), spot);
  }

  lemma PartsOneLine(a: string, ind: string, c: string)
    requires OneLine(a + " " + c) && OneLine(ind)
    ensures OneLine(a) && OneLine(ind + c)
  {
    assert forall d | d in a :: d in a + " " + c;
    assert forall d | d in c :: d in a + " " + c;
  }
}
