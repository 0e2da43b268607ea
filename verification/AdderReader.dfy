/**
 The inline reader of the indentation syntax (`als_read_forms`, `als_read_one`, `als_line_node`): one
 line's text to forms.  A reader position is the text that is still to be read.
 */
module AdderReader {
  import opened AdderForms

  const MAXSEG: nat := 64

  predicate IsDelim(c: char) {
    c in " \t()\"'`,[]{}"
  }

  predicate IsBlank(c: char) {
    c == ' ' || c == '\t'
  }

  predicate IsDigit(c: char) {
    '0' <= c <= '9'
  }

  /** `als_atom`: a token, with the two literals that have another name in the target. */
  function AtomOf(t: string): Form {
    Atom(if t == "true" then "t" else if t == "false" then "nil" else t)
  }

  // ---- attribute tokens ----

  /** Dots of a token from `k` on, or none if one of them is not an attribute dot. */
  predicate DotsOk(t: string, k: nat)
    requires 1 <= k <= |t|
    decreases |t| - k
  {
    k + 1 >= |t|
    || ((t[k] == '.' ==> t[k - 1] != '.' && t[k + 1] != '.' && !IsDigit(t[k - 1]) && !IsDigit(t[k + 1]))
      && DotsOk(t, k + 1))
  }

  predicate IsAttr(t: string) {
    && |t| >= 3 && t[0] !in ":.\"#" && !IsDigit(t[0]) && t[|t| - 1] != '.'
    && DotsOk(t, 1) && '.' in t
  }

  function Segments(t: string, seg: string): (r: seq<string>)
    ensures r != []
  {
    if t == "" then [seg]
    else if t[0] == '.' then [seg] + Segments(t[1..], "")
    else Segments(t[1..], seg + [t[0]])
  }

  /** Segments of a token that attribute syntax applies to; none otherwise. */
  function AttrSegments(t: string): seq<string> {
    var segs := Segments(t, "");
    if IsAttr(t) && 2 <= |segs| <= MAXSEG then segs else []
  }

  function Quoted(t: string): string {
    "\"" + t + "\""
  }

  /** `als_read_chain`: a, then (a "b"), then ((a "b") "c"). */
  function ReadChain(segs: seq<string>): Form
    requires segs != []
  {
    if |segs| == 1 then AtomOf(segs[0]) else List([ReadChain(Front(segs)), Atom(Quoted(Last(segs)))])
  }

  function Desugar(f: Form): Form {
    match f
    case Atom(t) => var segs := AttrSegments(t); if segs != [] then ReadChain(segs) else f
    case List(kids) => List(seq(|kids|, i requires 0 <= i < |kids| => Desugar(kids[i])))
  }

  // ---- tokens ----

  function SkipBlanks(s: string, comma: bool): (r: string)
    ensures |r| <= |s|
    ensures r != "" ==> !IsBlank(r[0])
  {
    if s != "" && (IsBlank(s[0]) || (comma && s[0] == ',')) then SkipBlanks(s[1..], comma) else s
  }

  /** Characters of the string literal that `s` continues, up to and with its closing quote. */
  function StrEnd(s: string): (n: nat)
    ensures n <= |s|
  {
    if s == "" then 0
    else if s[0] == '\\' then (if |s| >= 2 then 2 + StrEnd(s[2..]) else 1)
    else if s[0] == '"' then 1
    else 1 + StrEnd(s[1..])
  }

  function TokEnd(s: string): (n: nat)
    ensures n <= |s|
  {
    if s == "" || IsDelim(s[0]) then 0 else 1 + TokEnd(s[1..])
  }

  predicate Binder(f: Form) {
    f.Atom? && f.text in ["def", "defn", "defc", "defmacro", "macro", "fn", "lambda"]
  }

  predicate SelfBinder(f: Form) {
    f.Atom? && f.text in ["fn", "lambda"]
  }

  function Opener(s: string): (n: nat)
    ensures n <= |s|
  {
    if |s| >= 2 && s[0] == '#' && (s[1] == '[' || s[1] == '{') then 2
    else if |s| >= 3 && s[0] == '#' && ((s[1] in "lg" && s[2] == '[') || (s[1] in "sd" && s[2] == '{')) then 3
    else 0
  }

  /** The head that a `#` bracket form expands to. */
  function OpenerHead(s: string): string
    requires Opener(s) > 0
  {
    if Opener(s) == 2 then (if s[1] == '[' then "vector" else "hash-set")
    else if s[1] == 'l' then "lfor" else if s[1] == 'g' then "gfor" else if s[1] == 's' then "sfor" else "dfor"
  }

  // ---- forms ----

  /** Read one form from non-empty text; at the end of the text, an empty atom. */
  function ReadOne(s: string): (r: (Form, string))
    ensures |r.1| <= |s| && (s != "" ==> |r.1| < |s|)
    decreases |s|, 0
  {
    if s == "" then (Atom(""), "")
    else if s[0] == '{' then var r := ReadForms(s[1..], ['}'], []); (List([Atom("hash-map")] + r.0), r.1)
    else if s[0] == '(' then var r := ReadForms(s[1..], [')'], []); (List(r.0), r.1)
    else if s[0] == '[' then
      var r := ReadForms(s[1..], [']'], []);
      (List([Atom("fn"), List([Atom("_")]), List(r.0)]), r.1)
    else if s[0] == '"' then var n := 1 + StrEnd(s[1..]); (AtomOf(s[..n]), s[n..])
    else if s[0] == '\'' then var r := ReadOne(SkipBlanks(s[1..], false)); (List([Atom("quote"), r.0]), r.1)
    else if s[0] == '`' then var r := ReadOne(SkipBlanks(s[1..], false)); (List([Atom("quasiquote"), r.0]), r.1)
    else if s[0] == ',' then
      var splice := |s| >= 2 && s[1] == '@';
      var r := ReadOne(SkipBlanks(if splice then s[2..] else s[1..], false));
      (List([Atom(if splice then "unquote-splicing" else "unquote"), r.0]), r.1)
    else if |s| >= 3 && s[0] == '#' && s[1] == '\\' then (AtomOf(s[..3]), s[3..])
    else if Opener(s) > 0 then
      var r := ReadForms(s[Opener(s)..], [if s[Opener(s) - 1] == '[' then ']' else '}'], []);
      (List([Atom(OpenerHead(s))] + r.0), r.1)
    else if |s| >= 3 && s[0] == '#' && s[1] == 'b' && s[2] == '"' then
      var n := 3 + StrEnd(s[3..]);
      (List([Atom("string->blob"), AtomOf(s[2..n])]), s[n..])
    else
      var n := if TokEnd(s) == 0 then 1 else TokEnd(s);
      (AtomOf(s[..n]), s[n..])
  }

  /** Read forms up to the closing character (`term` is empty at the top of a line), after `out`. */
  function ReadForms(s: string, term: string, out: seq<Form>): (r: (seq<Form>, string))
    requires |term| <= 1
    ensures |r.1| <= |s|
    decreases |s|, 1
  {
    var t := SkipBlanks(s, term == "}");
    if t == "" then (out, "")
    else if term == [t[0]] then (out, t[1..])
    else
      var one := ReadOne(t);
      if one.0.Atom? && one.1 != "" && one.1[0] == '(' then
        var args := ReadForms(one.1[1..], ")", []);
        var segs := AttrSegments(one.0.text);
        if segs == [] && ((out != [] && Binder(Last(out))) || SelfBinder(one.0)) then
          ReadForms(args.1, term, out + [one.0, List(args.0)])
        else
          var call := if segs != [] then List([AtomOf(Last(segs)), ReadChain(Front(segs))] + args.0)
              else List([one.0] + args.0);
          var more := ReadCalls(call, args.1);
          ReadForms(more.1, term, out + [more.0])
      else ReadForms(one.1, term, out + [one.0])
  }

  /** Argument groups glued to a call re-head it. */
  function ReadCalls(call: Form, s: string): (r: (Form, string))
    ensures |r.1| <= |s|
    decreases |s|, 0
  {
    if s != "" && s[0] == '(' then
      var more := ReadForms(s[1..], ")", []);
      ReadCalls(List([call] + more.0), more.1)
    else (call, s)
  }

  predicate Infix(fs: seq<Form>) {
    |fs| >= 3 && fs[1] == Atom("=")
  }

  /** `lhs = rhs...`, with an attribute on the left turned into a write. */
  function Assignment(fs: seq<Form>): Form
    requires Infix(fs)
  {
    var rhs := if |fs| == 3 then fs[2] else List(fs[2..]);
    var segs := if fs[0].Atom? then AttrSegments(fs[0].text) else [];
    if segs != [] then List([Atom("assoc!"), ReadChain(Front(segs)), Atom(Quoted(Last(segs))), rhs])
    else List([fs[1], fs[0], rhs])
  }

  /** The node of a line: a lone form is itself, several make a list. */
  function NodeOf(fs: seq<Form>): Form {
    Desugar(if |fs| == 1 then fs[0] else if Infix(fs) then Assignment(fs) else List(fs))
  }

  function ReadLine(text: string): Form {
    NodeOf(ReadForms(text, "", []).0)
  }
}
