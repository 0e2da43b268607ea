/**
 From source text to logical lines: comments, implicit joining of lines with open brackets,
 indentation, block colons.  Each scanner walks the text once, in or out of a string literal.
 */
module AdderSource {
  import opened Wrappers
  import opened AdderForms
  import opened AdderBlocks
  import opened AdderReader

  /** `als_strip_comment`. */
  function Strip(s: string, inStr: bool): (r: string)
    ensures |r| <= |s|
  {
    if s == "" then ""
    else if inStr then
      if s[0] == '\\' && |s| >= 2 then s[..2] + Strip(s[2..], true)
      else [s[0]] + Strip(s[1..], s[0] != '"')
    else if s[0] == '#' && |s| >= 2 && s[1] == '\\' then
      if |s| >= 3 then s[..3] + Strip(s[3..], false) else s
    else if s[0] == ';' then ""
    else if s[0] == '#' && (|s| == 1 || s[1] in " \t!") then ""
    else [s[0]] + Strip(s[1..], s[0] == '"')
  }

  function Nesting(c: char): int {
    if c in "([{" then 1 else if c in ")]}" then -1 else 0
  }

  /** `als_bracket_depth`: net depth, and whether the text ends inside a string. */
  function Depth(s: string, inStr: bool): (int, bool) {
    if s == "" then (0, inStr)
    else if inStr then
      if s[0] == '\\' && |s| >= 2 then Depth(s[2..], true) else Depth(s[1..], s[0] != '"')
    else if s[0] == '#' && |s| >= 2 && s[1] == '\\' then
      if |s| >= 3 then Depth(s[3..], false) else (0, false)
    else
      var r := Depth(s[1..], s[0] == '"');
      (r.0 + Nesting(s[0]), r.1)
  }

  /** The string state that `als_opens_block` computes, which knows no character literals. */
  function InStrAfter(s: string, inStr: bool): bool {
    if s == "" then inStr
    else if inStr && s[0] == '\\' then |s| < 2 || InStrAfter(s[2..], true)
    else InStrAfter(s[1..], if s[0] == '"' then !inStr else inStr)
  }

  function TrimRight(s: string, cr: bool): (r: string)
    ensures r <= s
  {
    if s != "" && (IsBlank(Last(s)) || (cr && Last(s) == '\r')) then TrimRight(Front(s), cr) else s
  }

  /** `als_opens_block`: the text without its block colon, and whether it had one. */
  function OpensBlock(t: string): (string, bool) {
    if t == "" || Last(t) != ':' || InStrAfter(Front(t), false) then (t, false) else (TrimRight(Front(t), false), true)
  }

  /** `als_inline_colon`: where `head: body` splits. */
  function InlineColon(s: string, inStr: bool): (r: Option<nat>)
    ensures r.Some? ==> r.value < |s|
  {
    if s == "" then None
    else if inStr then
      if s[0] == '\\' && |s| >= 2 then Shift(2, InlineColon(s[2..], true))
      else Shift(1, InlineColon(s[1..], s[0] != '"'))
    else if s[0] == ':' && |s| >= 2 && IsBlank(s[1]) then
      if SkipBlanks(s[1..], false) == "" then None else Some(0)
    else Shift(1, InlineColon(s[1..], s[0] == '"'))
  }

  function Shift(n: nat, o: Option<nat>): Option<nat> {
    if o.Some? then Some(n + o.value) else None
  }

  predicate StartsWith(s: string, word: string) {
    word <= s && (|s| == |word| || IsBlank(s[|word|]))
  }

  /** What the trimmed text of a logical line says. */
  function ReadBody(body: string): What {
    var open := OpensBlock(body);
    var t := open.0;
    if open.1 && t == "else" then Else
    else if open.1 && StartsWith(t, "elif") then Elif(ReadLine(SkipBlanks(t[4..], false)))
    else
      var colon := if open.1 then None else InlineColon(t, false);
      if colon.Some? then
        var head := ReadLine(t[..colon.value]);
        var tail := ReadLine(SkipBlanks(t[colon.value + 1..], false));
        Stmt(List((if head.List? then head.kids else [head]) + [tail]), false)
      else Stmt(ReadLine(t), open.1)
  }

  /** Leading blanks. */
  function Indent(s: string): (n: nat)
    ensures n <= |s|
  {
    if s != "" && IsBlank(s[0]) then 1 + Indent(s[1..]) else 0
  }

  /** The engine, the indentation character the source committed to, and whether a mix was reported. */
  datatype Source = Source(engine: Engine, style: Option<char>, mixed: bool)

  function FailAt(st: Source, number: nat, what: string): (r: Source)
    requires Good(st.engine)
    ensures Good(r.engine)
  {
    FailGood(st.engine, number, what);
    st.(engine := Fail(st.engine, number, what))
  }

  /** Indentation is counted in characters, so tabs and spaces must not be mixed. */
  function CheckIndent(st: Source, lead: string, number: nat): (r: Source)
    requires Good(st.engine)
    ensures Good(r.engine)
  {
    if lead == "" || st.mixed then st else
    var tab, sp := '\t' in lead, ' ' in lead;
    var style := if st.style.None? && !(sp && tab) then Some(if tab then '\t' else ' ') else st.style;
    var st1 := st.(style := style);
    if (sp && tab) || (style.Some? && if style.value == ' ' then tab else sp) then
      FailAt(st1, number, "indentation mixes tabs and spaces; pick one").(mixed := true)
    else st1
  }

  /** One logical line whose brackets balance. */
  function Process(st: Source, raw: string, number: nat): (r: Source)
    requires Good(st.engine)
    ensures Good(r.engine)
  {
    var text := Strip(raw, false);
    var n := Indent(text);
    var body := TrimRight(text[n..], true);
    if body == "" then st else
    var st1 := CheckIndent(st, text[..n], number);
    var l := Line(n, number, ReadBody(body));
    StepGood(st1.engine, l);
    st1.(engine := Step(st1.engine, l))
  }

  /** Implicit joining: the logical line that starts with `raw`, and how many more lines it takes. */
  function Join(raw: string, rest: seq<string>): (r: (string, nat))
    ensures r.1 <= |rest|
    decreases |rest|
  {
    var d := Depth(Strip(raw, false), false);
    if rest == [] || (!d.1 && d.0 <= 0) then (raw, 0)
    else
      var next := if d.1 then raw + "\n" + rest[0] else raw + " " + SkipBlanks(rest[0], false);
      var r := Join(next, rest[1..]);
      (r.0, r.1 + 1)
  }

  function Logical(st: Source, raw: string, number: nat): (r: Source)
    requires Good(st.engine)
    ensures Good(r.engine)
  {
    var d := Depth(Strip(raw, false), false);
    if d.1 then FailAt(st, number, "unterminated string literal - reached end of input")
    else if d.0 > 0 then FailAt(st, number, "unterminated ( [ or { - reached end of input")
    else if d.0 < 0 then FailAt(st, number, "unexpected ) ] or } with no matching opener")
    else Process(st, raw, number)
  }

  function ReadLines(st: Source, lines: seq<string>, number: nat): (r: Source)
    requires Good(st.engine)
    ensures Good(r.engine)
    decreases |lines|
  {
    if lines == [] then st else
    var j := Join(lines[0], lines[1..]);
    ReadLines(Logical(st, j.0, number), lines[1 + j.1..], number + 1 + j.1)
  }

  function SplitLines(src: string, line: string): (r: seq<string>)
    ensures r != []
    decreases |src|
  {
    if src == "" then [line]
    else if src[0] == '\n' then [line] + SplitLines(src[1..], "")
    else SplitLines(src[1..], line + [src[0]])
  }

  datatype Output = Output(forms: seq<Form>, map_: seq<nat>, err: Option<Diagnosis>)

  lemma StartGood()
    ensures Good(Start())
  {
  }

  /** `als_to_sexpr_mapped`: the forms written out, one line each, and the source line of each. */
  function Transpile(src: string): Output {
    StartGood();
    var st := ReadLines(Source(Start(), None, false), SplitLines(src, ""), 1);
    Output(Finish(st.engine), st.engine.map_, st.engine.err)
  }
}
