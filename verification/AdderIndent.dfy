/** Mixed indentation is reported exactly when the source's lines start with both kinds of blank. */
module AdderIndent {
  import opened Wrappers
  import opened AdderForms
  import opened AdderBlocks
  import opened AdderOutput
  import opened AdderReader
  import opened AdderSource

  /** The blanks that a logical line starts with, if it says anything. */
  function LeadOf(raw: string): string {
    var text := Strip(raw, false);
    var n := Indent(text);
    if Depth(text, false) != (0, false) || TrimRight(text[n..], true) == "" then "" else text[..n]
  }

  function Leads(spans: seq<Span>): string {
    if spans == [] then "" else LeadOf(spans[0].raw) + Leads(spans[1..])
  }

  predicate Mixed(lead: string) {
    '\t' in lead && ' ' in lead
  }

  /** After lines that start with the blanks `seen`: a mix is noted and reported if there was one, and if not, the
      source has committed to the one kind of blank there was. */
  predicate Committed(st: Source, seen: string) {
    && (forall c | c in seen :: c == ' ' || c == '\t')
    && (st.mixed <==> Mixed(seen)) && (st.mixed ==> st.engine.err.Some?)
    && (!st.mixed ==> st.style == if seen == "" then None else Some(seen[0]))
  }

  lemma {:induction false} IndentBlanks(s: string)
    ensures forall c | c in s[..Indent(s)] :: c == ' ' || c == '\t'
  {
    if s != "" && IsBlank(s[0]) {
      IndentBlanks(s[1..]);
      assert s[..Indent(s)] == [s[0]] + s[1..][..Indent(s[1..])];
    }
  }

  lemma OneKind(seen: string, c: char)
    requires (forall d | d in seen :: d == ' ' || d == '\t') && !Mixed(seen) && c in seen
    ensures c == seen[0]
  {
    assert seen[0] in seen;
  }

  /** A check notes and reports a mix exactly when the line brings it in. */
  lemma CheckCommits(st: Source, lead: string, number: nat, seen: string)
    requires Good(st.engine) && Committed(st, seen) && forall c | c in lead :: c == ' ' || c == '\t'
    ensures var r := CheckIndent(st, lead, number);
            && Committed(r, seen + lead)
            && r.engine == if !Mixed(seen) && Mixed(seen + lead)
                           then Fail(st.engine, number, "indentation mixes tabs and spaces; pick one") else st.engine
  {
    hide Good;
    if lead == "" {
      assert seen + lead == seen;
    } else if !st.mixed {
      assert lead[0] in lead;
      if seen == "" {
        assert seen + lead == lead;
        if !Mixed(lead) {
          OneKind(lead, lead[0]);
        }
      } else {
        assert (seen + lead)[0] == seen[0] && seen[0] in seen;
        OneKind(seen, seen[0]);
        if '\t' in seen {
          OneKind(seen, '\t');
        }
        if ' ' in seen {
          OneKind(seen, ' ');
        }
      }
    }
  }

  lemma LogicalCommits(st: Source, raw: string, number: nat, seen: string)
    requires Good(st.engine) && Committed(st, seen)
    ensures Committed(Logical(st, raw, number), seen + LeadOf(raw))
  {
    hide Good, Strip, Depth, ReadBody, Step, Indent, TrimRight, CheckIndent, Mixed, Fail;
    var text := Strip(raw, false);
    var n := Indent(text);
    if LeadOf(raw) == "" {
      assert seen + LeadOf(raw) == seen;
    }
    if Depth(text, false) != (0, false) {
      FailKeeps(st, number, "unterminated string literal - reached end of input", seen);
      FailKeeps(st, number, "unterminated ( [ or { - reached end of input", seen);
      FailKeeps(st, number, "unexpected ) ] or } with no matching opener", seen);
    } else if TrimRight(text[n..], true) != "" {
      IndentBlanks(text);
      CheckCommits(st, text[..n], number, seen);
      var st1 := CheckIndent(st, text[..n], number);
      StepKeeps(st1.engine, Line(n, number, ReadBody(TrimRight(text[n..], true))));
    }
  }

  lemma FailKeeps(st: Source, number: nat, what: string, seen: string)
    requires Good(st.engine) && Committed(st, seen)
    ensures Committed(FailAt(st, number, what), seen)
  {
    hide Mixed;
  }

  /** A diagnosis stays. */
  lemma StepKeeps(e: Engine, l: Line)
    requires Good(e)
    ensures e.err.Some? ==> Step(e, l).err.Some?
  {
    hide Good;
    if e.err.Some? {
      StepErr(e, l);
    }
  }

  lemma {:induction false} FeedCommits(st: Source, spans: seq<Span>, seen: string)
    requires Good(st.engine) && Committed(st, seen)
    ensures Committed(Feed(st, spans), seen + Leads(spans))
    decreases |spans|
  {
    hide Good, Logical, Committed, LeadOf;
    if spans == [] {
      assert seen + Leads(spans) == seen;
    } else {
      LogicalCommits(st, spans[0].raw, spans[0].number, seen);
      FeedCommits(Logical(st, spans[0].raw, spans[0].number), spans[1..], seen + LeadOf(spans[0].raw));
      assert seen + LeadOf(spans[0].raw) + Leads(spans[1..]) == seen + Leads(spans);
    }
  }

  function Final(src: string): Source {
    AdderSource.StartGood();
    Feed(Source(Start(), None, false), SpansOf(src))
  }

  /** A source has mixed indentation noted exactly when its lines, taken together, start with both kinds of blank,
      and then it has a diagnosis. */
  lemma IndentExact(src: string)
    ensures Final(src).mixed <==> Mixed(Leads(SpansOf(src)))
    ensures Mixed(Leads(SpansOf(src))) ==> Transpile(src).err.Some?
  {
    hide Good, Feed, Leads, Mixed, SplitLines, ReadLines, Finish, Spans;
    AdderSource.StartGood();
    var st := Source(Start(), None, false);
    StartCommitted();
    FeedCommits(st, SpansOf(src), "");
    assert "" + Leads(SpansOf(src)) == Leads(SpansOf(src));
    ReadLinesFeed(st, SplitLines(src, ""), 1);
  }

  lemma StartCommitted()
    ensures Committed(Source(Start(), None, false), "")
  {
  }
}
