/** The text that the indentation transpiler writes, and the map from its lines to the lines of the source. */
module AdderOutput {
  import opened Wrappers
  import opened AdderForms
  import opened AdderBlocks
  import opened AdderCounts
  import opened AdderReader
  import opened AdderSource

  // ---- the generated text ----

  /** `als_emit`. */
  function EmitText(f: Form): string
    decreases f, 1
  {
    match f
    case Atom(t) => t
    case List(_) => "(" + EmitKids(f, 0) + ")"
  }

  function EmitKids(f: Form, k: nat): string
    requires f.List? && k <= |f.kids|
    decreases f, 0, |f.kids| - k
  {
    if k == |f.kids| then "" else (if k > 0 then " " else "") + EmitText(f.kids[k]) + EmitKids(f, k + 1)
  }

  /** Every root, and a line feed after each. */
  function EmitAll(fs: seq<Form>): string {
    if fs == [] then "" else EmitText(fs[0]) + "\n" + EmitAll(fs[1..])
  }

  /** What `als_to_sexpr_mapped` returns: the text, the map, and the first syntax error. */
  datatype Generated = Generated(text: string, map_: seq<nat>, err: Option<Diagnosis>)

  function Generate(src: string): Generated {
    var out := Transpile(src);
    Generated(EmitAll(out.forms), out.map_, out.err)
  }

  /** `als_map_lookup`: the source line for a line of the text, counted from 1; 0 if there is none. */
  function Lookup(map_: seq<nat>, line: nat): nat {
    if line < 1 || line > |map_| then 0 else map_[line - 1]
  }

  /** Line feeds in a text. */
  function Feeds(s: string): nat {
    Count(s, {'\n'})
  }

  lemma {:induction false} FeedsNone(s: string)
    ensures Feeds(s) == 0 <==> OneLine(s)
  {
    if s != "" {
      FeedsNone(s[1..]);
      assert s == [s[0]] + s[1..];
    }
  }

  lemma {:induction false} SplitCount(s: string, pre: string)
    ensures |SplitLines(s, pre)| == Feeds(s) + 1
    decreases |s|
  {
    if s != "" {
      SplitCount(s[1..], if s[0] == '\n' then "" else pre + [s[0]]);
    }
  }

  lemma {:induction false} SplitOne(line: string, pre: string, more: string)
    requires OneLine(line)
    ensures SplitLines(line, pre) == [pre + line]
    ensures SplitLines(line + "\n" + more, pre) == [pre + line] + SplitLines(more, "")
    decreases |line|
  {
    var s := line + "\n" + more;
    if line == "" {
      assert s[0] == '\n' && s[1..] == more && pre + line == pre;
    } else {
      assert line[0] in line;
      SplitOne(line[1..], pre + [line[0]], more);
      assert s[0] == line[0] && s[1..] == line[1..] + "\n" + more;
      assert pre + [line[0]] + line[1..] == pre + line;
    }
  }

  function Texts(fs: seq<Form>): seq<string> {
    seq(|fs|, i requires 0 <= i < |fs| => EmitText(fs[i]))
  }

  /** Line feeds inside the roots' own texts. */
  function InnerFeeds(fs: seq<Form>): nat {
    if fs == [] then 0 else Feeds(EmitText(fs[0])) + InnerFeeds(fs[1..])
  }

  lemma {:induction false} EmitAllFeeds(fs: seq<Form>)
    ensures Feeds(EmitAll(fs)) == |fs| + InnerFeeds(fs)
  {
    hide Count, EmitText;
    if fs == [] {
      FeedsNone("");
    } else {
      var t := EmitText(fs[0]);
      CountConcat(t + "\n", EmitAll(fs[1..]), {'\n'});
      CountConcat(t, "\n", {'\n'});
      OneFeed();
      EmitAllFeeds(fs[1..]);
    }
  }

  lemma OneFeed()
    ensures Feeds("\n") == 1
  {
    assert "\n"[1..] == "";
  }

  lemma {:induction false} InnerFeedsNone(fs: seq<Form>)
    ensures InnerFeeds(fs) == 0 <==> forall i | 0 <= i < |fs| :: OneLine(EmitText(fs[i]))
  {
    hide Feeds, EmitText, OneLine;
    if fs != [] {
      FeedsNone(EmitText(fs[0]));
      InnerFeedsNone(fs[1..]);
      if forall i | 0 <= i < |fs[1..]| :: OneLine(EmitText(fs[1..][i])) {
        forall i | 1 <= i < |fs| ensures OneLine(EmitText(fs[i])) {
          assert fs[1..][i - 1] == fs[i];
        }
      } else {
        var i :| 0 <= i < |fs[1..]| && !OneLine(EmitText(fs[1..][i]));
        assert fs[i + 1] == fs[1..][i];
      }
    }
  }

  lemma {:induction false} EmitAllSplits(fs: seq<Form>)
    requires forall i | 0 <= i < |fs| :: OneLine(EmitText(fs[i]))
    ensures SplitLines(EmitAll(fs), "") == Texts(fs) + [""]
  {
    hide EmitText, OneLine;
    if fs == [] {
      assert Texts(fs) + [""] == [""];
    } else {
      assert OneLine(EmitText(fs[0]));
      SplitOne(EmitText(fs[0]), "", EmitAll(fs[1..]));
      forall i | 0 <= i < |fs[1..]| ensures OneLine(EmitText(fs[1..][i])) {
        assert fs[1..][i] == fs[i + 1];
      }
      EmitAllSplits(fs[1..]);
      assert Texts(fs) == [EmitText(fs[0])] + Texts(fs[1..]);
      assert "" + EmitText(fs[0]) == EmitText(fs[0]);
    }
  }

  /** The generated text has one line for each root, the root's text, exactly when no root's text holds a line
      feed. */
  lemma OneLineEach(fs: seq<Form>)
    ensures |SplitLines(EmitAll(fs), "")| == |fs| + 1 + InnerFeeds(fs)
    ensures SplitLines(EmitAll(fs), "") == Texts(fs) + [""] <==> forall i | 0 <= i < |fs| :: OneLine(EmitText(fs[i]))
  {
    hide EmitText, OneLine, EmitAll, SplitLines, InnerFeeds;
    SplitCount(EmitAll(fs), "");
    EmitAllFeeds(fs);
    InnerFeedsNone(fs);
    if forall i | 0 <= i < |fs| :: OneLine(EmitText(fs[i])) {
      EmitAllSplits(fs);
    }
  }

  // ---- which trees hold a line feed ----

  /** No atom of the tree holds a line feed. */
  predicate Unbroken(f: Form) {
    match f
    case Atom(t) => OneLine(t)
    case List(kids) => forall i | 0 <= i < |kids| :: Unbroken(kids[i])
  }

  lemma {:induction false} TextUnbroken(f: Form)
    ensures OneLine(EmitText(f)) <==> Unbroken(f)
    decreases f, 1
  {
    if f.List? {
      KidsUnbroken(f, 0);
    }
  }

  lemma {:induction false} KidsUnbroken(f: Form, k: nat)
    requires f.List? && k <= |f.kids|
    ensures OneLine(EmitKids(f, k)) <==> forall i | k <= i < |f.kids| :: Unbroken(f.kids[i])
    decreases f, 0, |f.kids| - k
  {
    if k < |f.kids| {
      TextUnbroken(f.kids[k]);
      KidsUnbroken(f, k + 1);
    }
  }

  // ---- the logical lines of a source ----

  /** A logical line: the number of its first physical line, and its text. */
  datatype Span = Span(number: nat, raw: string)

  function Spans(lines: seq<string>, number: nat): seq<Span>
    decreases |lines|
  {
    if lines == [] then [] else
    var j := Join(lines[0], lines[1..]);
    [Span(number, j.0)] + Spans(lines[1 + j.1..], number + 1 + j.1)
  }

  function Feed(st: Source, spans: seq<Span>): (r: Source)
    requires Good(st.engine)
    ensures Good(r.engine)
    decreases |spans|
  {
    if spans == [] then st else Feed(Logical(st, spans[0].raw, spans[0].number), spans[1..])
  }

  lemma LogicalErr(st: Source, raw: string, n: nat)
    requires Good(st.engine) && st.engine.err.Some?
    ensures Logical(st, raw, n).engine.err.Some?
  {
    hide Good, Strip, Depth, ReadBody, Step;
    var text := Strip(raw, false);
    var ind := Indent(text);
    var body := TrimRight(text[ind..], true);
    if body != "" {
      var st1 := CheckIndent(st, text[..ind], n);
      StepErr(st1.engine, Line(ind, n, ReadBody(body)));
    }
  }

  lemma {:induction false} ReadLinesFeed(st: Source, lines: seq<string>, number: nat)
    requires Good(st.engine)
    ensures ReadLines(st, lines, number) == Feed(st, Spans(lines, number))
    decreases |lines|
  {
    hide Good, Logical, Join;
    if lines != [] {
      var j := Join(lines[0], lines[1..]);
      ReadLinesFeed(Logical(st, j.0, number), lines[1 + j.1..], number + 1 + j.1);
      assert ([Span(number, j.0)] + Spans(lines[1 + j.1..], number + 1 + j.1))[1..]
          == Spans(lines[1 + j.1..], number + 1 + j.1);
    }
  }

  lemma {:induction false} JoinStarts(raw: string, rest: seq<string>)
    ensures raw <= Join(raw, rest).0
    decreases |rest|
  {
    hide Depth, Strip;
    var d := Depth(Strip(raw, false), false);
    if rest != [] && (d.1 || d.0 > 0) {
      JoinStarts(if d.1 then raw + "\n" + rest[0] else raw + " " + SkipBlanks(rest[0], false), rest[1..]);
    }
  }

  /** A logical line starts with the physical line of its number. */
  predicate SpanAt(lines: seq<string>, number: nat, s: Span) {
    number <= s.number < number + |lines| && lines[s.number - number] <= s.raw
  }

  predicate SpansOk(lines: seq<string>, number: nat, spans: seq<Span>) {
    && (forall i {:trigger spans[i]} | 0 <= i < |spans| :: SpanAt(lines, number, spans[i]))
    && (forall i, j | 0 <= i < j < |spans| :: spans[i].number < spans[j].number)
  }

  lemma SpansCons(lines: seq<string>, number: nat, n: nat, s: Span, more: seq<Span>)
    requires 0 < n <= |lines| && s.number == number && lines[0] <= s.raw && SpansOk(lines[n..], number + n, more)
    ensures SpansOk(lines, number, [s] + more)
  {
    var spans := [s] + more;
    forall i | 0 <= i < |spans| ensures SpanAt(lines, number, spans[i]) && (i > 0 ==> spans[i].number > number) {
      if i > 0 {
        assert spans[i] == more[i - 1];
        assert SpanAt(lines[n..], number + n, more[i - 1]);
      }
    }
  }

  lemma {:induction false} SpansStart(lines: seq<string>, number: nat)
    ensures SpansOk(lines, number, Spans(lines, number))
    decreases |lines|
  {
    hide Join, SpansOk;
    if lines == [] {
      NoSpans(lines, number);
    } else {
      var j := Join(lines[0], lines[1..]);
      JoinStarts(lines[0], lines[1..]);
      SpansStart(lines[1 + j.1..], number + 1 + j.1);
      SpansCons(lines, number, 1 + j.1, Span(number, j.0), Spans(lines[1 + j.1..], number + 1 + j.1));
    }
  }

  lemma NoSpans(lines: seq<string>, number: nat)
    ensures SpansOk(lines, number, [])
  {
  }

  // ---- the map ----

  /** From `e` to `e'` roots were added at the end, each mapped to `number`. */
  predicate MapsTo(e: Engine, e': Engine, number: nat) {
    && |e.roots| == |e.map_| && |e'.roots| == |e'.map_|
    && e.roots <= e'.roots && e.map_ <= e'.map_
    && forall k | |e.map_| <= k < |e'.map_| :: e'.map_[k] == number
  }

  lemma FailMaps(e: Engine, line: nat, what: string)
    requires Good(e)
    ensures MapsTo(e, Fail(e, line, what), line)
  {
  }

  lemma StepMaps(e: Engine, l: Line)
    requires Good(e)
    ensures MapsTo(e, Step(e, l), l.number)
  {
    PopGood(e, l.indent);
    StepGood(e, l);
    if l.what.Stmt? && l.what.block {
      BlockMaps(e.(stack := Pop(e.stack, l.indent)), l.indent, l.number, LineNode(l.what.node, true).kids);
    }
  }

  lemma BlockMaps(e: Engine, indent: nat, number: nat, kids: seq<Form>)
    requires Good(e)
    ensures MapsTo(e, StepBlock(e, indent, number, kids), number)
  {
    OpenedGood(e, indent, kids);
  }

  lemma LogicalMaps(st: Source, raw: string, number: nat)
    requires Good(st.engine)
    ensures MapsTo(st.engine, Logical(st, raw, number).engine, number)
  {
    hide Good, Fail, Step, Depth, Strip, ReadBody, Indent, TrimRight, CheckIndent;
    var d := Depth(Strip(raw, false), false);
    GoodMaps(st.engine);
    if d.1 {
      FailMaps(st.engine, number, "unterminated string literal - reached end of input");
    } else if d.0 > 0 {
      FailMaps(st.engine, number, "unterminated ( [ or { - reached end of input");
    } else if d.0 < 0 {
      FailMaps(st.engine, number, "unexpected ) ] or } with no matching opener");
    } else {
      var text := Strip(raw, false);
      var n := Indent(text);
      var body := TrimRight(text[n..], true);
      if body != "" {
        CheckMaps(st, text[..n], number);
        StepMaps(CheckIndent(st, text[..n], number).engine, Line(n, number, ReadBody(body)));
      }
    }
  }

  lemma GoodMaps(e: Engine)
    requires Good(e)
    ensures MapsTo(e, e, 0) && |e.roots| == |e.map_|
  {
  }

  lemma CheckMaps(st: Source, lead: string, number: nat)
    requires Good(st.engine)
    ensures MapsTo(st.engine, CheckIndent(st, lead, number).engine, number)
  {
    hide Good, Fail;
    GoodMaps(st.engine);
    var what := "indentation mixes tabs and spaces; pick one";
    FailMaps(st.engine, number, what);
    StyleFails(st, lead, number, what);
  }

  /** The report keeps everything but the roots. */
  lemma StyleFails(st: Source, lead: string, number: nat, what: string)
    requires Good(st.engine) && what == "indentation mixes tabs and spaces; pick one"
    ensures CheckIndent(st, lead, number).engine in {st.engine, Fail(st.engine, number, what)}
  {
    hide Good, Fail;
  }

  /** How many roots there are once the first `i` logical lines have been read. */
  function RootsAfter(spans: seq<Span>, i: nat): nat
    requires i <= |spans|
  {
    AdderSource.StartGood();
    |Feed(Source(Start(), None, false), spans[..i]).engine.roots|
  }

  lemma {:induction false} FeedSnoc(st: Source, spans: seq<Span>, s: Span)
    requires Good(st.engine)
    ensures Feed(st, spans + [s]) == Logical(Feed(st, spans), s.raw, s.number)
    decreases |spans|
  {
    hide Good, Logical;
    if spans == [] {
      assert [] + [s] == [s] && [s][1..] == [];
    } else {
      assert (spans + [s])[0] == spans[0] && (spans + [s])[1..] == spans[1..] + [s];
      FeedSnoc(Logical(st, spans[0].raw, spans[0].number), spans[1..], s);
    }
  }

  lemma {:induction false} FeedConcat(st: Source, a: seq<Span>, b: seq<Span>)
    requires Good(st.engine)
    ensures Feed(st, a + b) == Feed(Feed(st, a), b)
    decreases |a|
  {
    hide Good, Logical;
    if a == [] {
      assert a + b == b;
    } else {
      assert (a + b)[0] == a[0] && (a + b)[1..] == a[1..] + b;
      FeedConcat(Logical(st, a[0].raw, a[0].number), a[1..], b);
    }
  }

  /** Roots and their entries stay as they are. */
  predicate Grown(e: Engine, e': Engine) {
    |e.roots| == |e.map_| && |e'.roots| == |e'.map_| && e.roots <= e'.roots && e.map_ <= e'.map_
  }

  lemma {:induction false} FeedGrows(st: Source, spans: seq<Span>)
    requires Good(st.engine)
    ensures Grown(st.engine, Feed(st, spans).engine)
    decreases |spans|
  {
    hide Good, Logical;
    GoodMaps(st.engine);
    if spans != [] {
      LogicalMaps(st, spans[0].raw, spans[0].number);
      FeedGrows(Logical(st, spans[0].raw, spans[0].number), spans[1..]);
    }
  }

  function SpansOf(src: string): seq<Span> {
    Spans(SplitLines(src, ""), 1)
  }

  lemma TranspileFeeds(src: string)
    ensures Good(Start())
    ensures var e := Feed(Source(Start(), None, false), SpansOf(src)).engine;
            Transpile(src).map_ == e.map_
                && |Transpile(src).forms| == |e.roots| == |e.map_| == RootsAfter(SpansOf(src), |SpansOf(src)|)
  {
    hide Good, Feed, Spans, ReadLines, SplitLines, Start, Finish;
    AdderSource.StartGood();
    var st := Source(Start(), None, false);
    ReadLinesFeed(st, SplitLines(src, ""), 1);
    FinishTrees(ReadLines(st, SplitLines(src, ""), 1).engine);
    assert SpansOf(src)[..|SpansOf(src)|] == SpansOf(src);
  }

  /** The roots that a logical line adds are mapped to its first physical line. */
  lemma LineMaps(src: string, i: nat, k: nat)
    requires i < |SpansOf(src)| && RootsAfter(SpansOf(src), i) <= k < RootsAfter(SpansOf(src), i + 1)
    ensures k < |Transpile(src).map_| && Transpile(src).map_[k] == SpansOf(src)[i].number
  {
    hide Good, Feed, Spans, Transpile, SplitLines, Logical, Start;
    TranspileFeeds(src);
    var st, spans := Source(Start(), None, false), SpansOf(src);
    var a := Feed(st, spans[..i]);
    FeedSnoc(st, spans[..i], spans[i]);
    assert spans[..i] + [spans[i]] == spans[..i + 1];
    LogicalMaps(a, spans[i].raw, spans[i].number);
    FeedConcat(st, spans[..i + 1], spans[i + 1..]);
    assert spans[..i + 1] + spans[i + 1..] == spans;
    FeedGrows(Feed(st, spans[..i + 1]), spans[i + 1..]);
  }

  lemma {:induction false} OwnerExists(spans: seq<Span>, n: nat, k: nat) returns (i: nat)
    requires n <= |spans| && k < RootsAfter(spans, n)
    ensures i < n && RootsAfter(spans, i) <= k < RootsAfter(spans, i + 1)
  {
    hide Feed, Start;
    if n == 0 {
      NoRoots(spans);
      assert false;
    } else if k < RootsAfter(spans, n - 1) {
      i := OwnerExists(spans, n - 1, k);
    } else {
      i := n - 1;
    }
  }

  lemma NoRoots(spans: seq<Span>)
    ensures RootsAfter(spans, 0) == 0
  {
  }

  /** Root `k` belongs to logical line `i`: the line adds it, is mapped to, and starts there in the source. */
  predicate Owns(src: string, i: nat, k: nat) {
    var lines, spans, map_ := SplitLines(src, ""), SpansOf(src), Transpile(src).map_;
    && i < |spans| && k < |map_| && RootsAfter(spans, i) <= k < RootsAfter(spans, i + 1)
    && map_[k] == spans[i].number && 1 <= map_[k] <= |lines| && lines[map_[k] - 1] <= spans[i].raw
  }

  /** Whatever the source, every form that is written out belongs to one logical line, and the map sends it to
      the first physical line of that one. */
  lemma MapExact(src: string, k: nat) returns (i: nat)
    requires k < |Transpile(src).forms|
    ensures |Transpile(src).map_| == |Transpile(src).forms|
    ensures Owns(src, i, k)
  {
    hide Good, Feed, Spans, Transpile, SplitLines, Start;
    TranspileFeeds(src);
    i := OwnerExists(SpansOf(src), |SpansOf(src)|, k);
    LineMaps(src, i, k);
    SpansStart(SplitLines(src, ""), 1);
    var spans := SpansOf(src);
    assert SpanAt(SplitLines(src, ""), 1, spans[i]);
  }

  /** If no form holds a line feed, then line `k + 1` of the generated text is form `k`, and looking it up gives
      the first physical line of the logical line that the form came from. */
  lemma MapRight(src: string, k: nat) returns (i: nat)
    requires k < |Transpile(src).forms| && forall f | f in Transpile(src).forms :: Unbroken(f)
    ensures |SplitLines(Generate(src).text, "")| == |Transpile(src).forms| + 1
    ensures SplitLines(Generate(src).text, "")[k] == EmitText(Transpile(src).forms[k])
    ensures Owns(src, i, k) && Lookup(Generate(src).map_, k + 1) == SpansOf(src)[i].number
  {
    hide Transpile, SplitLines, EmitText, EmitAll, Unbroken, OneLine, SpansOf, RootsAfter;
    var fs := Transpile(src).forms;
    forall j | 0 <= j < |fs| ensures OneLine(EmitText(fs[j])) {
      TextUnbroken(fs[j]);
    }
    OneLineEach(fs);
    i := MapExact(src, k);
  }
}
