/**
 The printer of the indentation syntax (`alc2adr.py`): a form becomes a sequence of lines, each an
 indentation and a piece of text, possibly opening a block.
 */
module AdderPrinter {
  import opened AdderForms

  const WIDTH: nat := 78

  predicate IsStr(t: string) {
    t != "" && t[0] == '"'
  }

  predicate IsSym(f: Form) {
    f.Atom? && !IsStr(f.text)
  }

  predicate Named(f: Form, name: string) {
    f == Atom(name)
  }

  /** A line feed or carriage return inside a string literal travels as an escape. */
  function Escape(c: char): string {
    if c == '\n' then "\\n" else if c == '\r' then "\\r" else [c]
  }

  function Escaped(t: string): string {
    if t == "" then "" else Escape(t[0]) + Escaped(t[1..])
  }

  function Tok(t: string): string {
    if IsStr(t) then Escaped(t) else t
  }

  predicate IsQuote(f: Form) {
    f.List? && |f.kids| == 2 && Named(f.kids[0], "quote")
  }

  /** Leading elements that stay on the `:` line of a body-bearing form (0: not one). */
  function HeaderArity(head: string): nat {
    if head in ["def", "defmacro", "mac", "let"] then 3
    else if head in ["fn", "with", "each", "if", "when", "unless", "while", "case"] then 2
    else if head == "for" then 4
    else if head == "do" then 1
    else 0
  }

  predicate LadderHead(f: Form) {
    f.Atom? && f.text in ["list", "cons", "append", "quasiquote"]
  }

  predicate LadderCall(f: Form) {
    f.List? && f.kids != [] && LadderHead(f.kids[0])
  }

  // ---- inline text ----

  function Expr(f: Form): string
    decreases f, 0
  {
    match f
    case Atom(t) => Tok(t)
    case List(kids) =>
      if kids == [] then "()"
      else if IsQuote(f) then "'" + Expr(kids[1])
      else "(" + Joined(f, |kids|) + ")"
  }

  /** A form's head, with the alias that reads better in indented code. */
  function HeadTok(head: Form): string
    decreases head, 1
  {
    if Named(head, "=") then "setf" else Expr(head)
  }

  /** The first `hi` elements of a call form, separated by spaces. */
  function Joined(f: Form, hi: nat): string
    requires f.List? && 1 <= hi <= |f.kids|
    decreases f, 0, hi
  {
    if hi == 1 then HeadTok(f.kids[0]) else Joined(f, hi - 1) + " " + Expr(f.kids[hi - 1])
  }

  // ---- lines ----

  datatype Piece =
    | Whole(form: Form)               // an atom, (), or 'x
    | Call(head: Form)                // head()
    | Header(form: Form, hi: nat)     // the first hi elements, opening a block
    | Flat(form: Form)                // the whole form without its parentheses
    | If(cond: Form)
    | Elif(cond: Form)
    | Else

  datatype Out = Out(indent: nat, piece: Piece)

  /** The start of the trailing run of nested builder calls among the first `k` elements. */
  function LadderStart(kids: seq<Form>, k: nat): (r: nat)
    requires k <= |kids|
    ensures r <= k && (1 <= k ==> 1 <= r)
  {
    if k > 1 && LadderCall(kids[k - 1]) then LadderStart(kids, k - 1) else k
  }

  /** The first list among the elements from `k` on. */
  function FirstList(kids: seq<Form>, k: nat): (r: nat)
    requires k <= |kids|
    ensures k <= r <= |kids|
    decreases |kids| - k
  {
    if k < |kids| && kids[k].Atom? then FirstList(kids, k + 1) else k
  }

  /** Elements that stay on the line when the form is laid out as a block; 0 if it is not. */
  function HeaderSize(f: Form, indent: nat): (k: nat)
    requires f.List? && f.kids != []
    ensures k < |f.kids|
  {
    var kids := f.kids;
    var ha := if IsSym(kids[0]) then HeaderArity(kids[0].text) else 0;
    if 0 < ha < |kids| then ha else
    var k := if LadderHead(kids[0]) then LadderStart(kids, |kids|) else |kids|;
    if k < |kids| then k
    else if |Joined(f, |kids|)| + indent <= WIDTH then 0
    else
      var m := FirstList(kids, 1);
      if m + 1 < |kids| then m + 1 else 0
  }

  function Stmt(f: Form, indent: nat): seq<Out>
    decreases f, 1, 0
  {
    if f.Atom? || f.kids == [] || IsQuote(f) then [Out(indent, Whole(f))]
    else if |f.kids| == 1 && IsSym(f.kids[0]) then [Out(indent, Call(f.kids[0]))]
    else if Named(f.kids[0], "if") && |f.kids| > 2 then
      [Out(indent, If(f.kids[1]))] + Stmt(f.kids[2], indent + 2) + Ladder(f, 3, indent)
    else
      var k := HeaderSize(f, indent);
      if k == 0 then [Out(indent, Flat(f))] else [Out(indent, Header(f, k))] + Stmts(f, k, indent + 2)
  }

  /** The elements from `k` on, as statements of their own. */
  function Stmts(f: Form, k: nat, indent: nat): seq<Out>
    requires f.List? && k <= |f.kids|
    decreases f, 0, |f.kids| - k
  {
    if k == |f.kids| then [] else Stmt(f.kids[k], indent) + Stmts(f, k + 1, indent)
  }

  /** The arms of an `if` from element `k` on. */
  function Ladder(f: Form, k: nat, indent: nat): seq<Out>
    requires f.List?
    decreases f, 0, if k < |f.kids| then |f.kids| - k else 0
  {
    if k + 1 < |f.kids| then
      [Out(indent, Elif(f.kids[k]))] + Stmt(f.kids[k + 1], indent + 2) + Ladder(f, k + 2, indent)
    else if k < |f.kids| then [Out(indent, Else)] + Stmt(f.kids[k], indent + 2)
    else []
  }

  // ---- text ----

  predicate PieceOk(p: Piece) {
    && (p.Header? ==> p.form.List? && 1 <= p.hi <= |p.form.kids|)
    && (p.Flat? ==> p.form.List? && p.form.kids != [])
  }

  function Text(p: Piece): string
    requires PieceOk(p)
  {
    match p
    case Whole(f) => Expr(f)
    case Call(h) => HeadTok(h) + "()"
    case Header(f, hi) => Joined(f, hi)
    case Flat(f) => Joined(f, |f.kids|)
    case If(c) => "if " + Expr(c)
    case Elif(c) => "elif " + Expr(c)
    case Else => "else"
  }

  predicate Opens(p: Piece) {
    p.Header? || p.If? || p.Elif? || p.Else?
  }

  function Spaces(n: nat): (r: string)
    ensures |r| == n && forall i | 0 <= i < n :: r[i] == ' '
  {
    seq(n, _ => ' ')
  }

  function Render(o: Out): string
    requires PieceOk(o.piece)
  {
    Spaces(o.indent) + Text(o.piece) + if Opens(o.piece) then ":" else ""
  }

  lemma {:induction false} StmtPieces(f: Form, indent: nat)
    ensures forall o | o in Stmt(f, indent) :: PieceOk(o.piece)
    decreases f, 1, 0
  {
    if f.Atom? || f.kids == [] || IsQuote(f) {
    } else if |f.kids| == 1 && IsSym(f.kids[0]) {
    } else if Named(f.kids[0], "if") && |f.kids| > 2 {
      StmtPieces(f.kids[2], indent + 2);
      LadderPieces(f, 3, indent);
    } else if HeaderSize(f, indent) > 0 {
      StmtsPieces(f, HeaderSize(f, indent), indent + 2);
    }
  }

  lemma {:induction false} StmtsPieces(f: Form, k: nat, indent: nat)
    requires f.List? && k <= |f.kids|
    ensures forall o | o in Stmts(f, k, indent) :: PieceOk(o.piece)
    decreases f, 0, |f.kids| - k
  {
    if k < |f.kids| {
      StmtPieces(f.kids[k], indent);
      StmtsPieces(f, k + 1, indent);
    }
  }

  lemma {:induction false} LadderPieces(f: Form, k: nat, indent: nat)
    requires f.List?
    ensures forall o | o in Ladder(f, k, indent) :: PieceOk(o.piece)
    decreases f, 0, if k < |f.kids| then |f.kids| - k else 0
  {
    if k + 1 < |f.kids| {
      StmtPieces(f.kids[k + 1], indent + 2);
      LadderPieces(f, k + 2, indent);
    } else if k < |f.kids| {
      StmtPieces(f.kids[k], indent + 2);
    }
  }

  function Renders(outs: seq<Out>): (r: seq<string>)
    requires forall o | o in outs :: PieceOk(o.piece)
    ensures |r| == |outs| && forall k | 0 <= k < |outs| :: r[k] == Render(outs[k])
  {
    if outs == [] then [] else [Render(outs[0])] + Renders(outs[1..])
  }

  /** The lines of a file, with an empty line after each form. */
  function FileText(fs: seq<Form>): seq<string> {
    if fs == [] then [] else
    StmtPieces(fs[0], 0);
    Renders(Stmt(fs[0], 0)) + [""] + FileText(fs[1..])
  }

  function JoinLines(lines: seq<string>): string {
    if lines == [] then "" else if |lines| == 1 then lines[0] else lines[0] + "\n" + JoinLines(lines[1..])
  }

  /** White space, as the final trim sees it. */
  predicate IsSpace(c: char) {
    '\t' <= c <= '\r' || '\U{1c}' <= c <= ' ' || c == '\U{85}' || c == '\U{a0}' || c == '\U{1680}'
        || '\U{2000}' <= c <= '\U{200a}'
    || c == '\U{2028}' || c == '\U{2029}' || c == '\U{202f}' || c == '\U{205f}' || c == '\U{3000}'
  }

  function RightTrim(s: string): string {
    if s != "" && IsSpace(Last(s)) then RightTrim(Front(s)) else s
  }

  /** `convert`: the whole output file. */
  function Convert(fs: seq<Form>): string {
    RightTrim(JoinLines(FileText(fs))) + "\n"
  }

  // ---- what the reader is to give back ----

  /** The tree with the head alias and the escapes that printing introduces, and with the target's own names for
      the two truth values. */
  function Canon(f: Form): Form {
    match f
    case Atom(t) => Atom(if t == "true" then "t" else if t == "false" then "nil" else Tok(t))
    case List(kids) =>
      List(seq(|kids|, i requires 0 <= i < |kids| => if i == 0 && Named(kids[0], "=") then Atom("setf")
          else Canon(kids[i])))
  }

  function CanonHead(head: Form): Form {
    if Named(head, "=") then Atom("setf") else Canon(head)
  }

  /** The elements of a form's canonical tree. */
  function Canons(f: Form): (r: seq<Form>)
    requires f.List?
    ensures |r| == |f.kids| && Canon(f) == List(r)
    ensures forall i | 0 <= i < |r| :: r[i] == if i == 0 then CanonHead(f.kids[0]) else Canon(f.kids[i])
  {
    Canon(f).kids
  }
}
