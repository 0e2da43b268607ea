/**
 Quasiquotation: the expander (`qq_expand`) turns a template into code, and evaluating that code fills
 the template in.
 */
module QuasiQuote {
  import opened Values

  datatype Outcome = Val(value: Value) | Error

  /** How the rest of the language evaluates a form; `quote`, `cons` and `append` are treated here. */
  type Evaluator = Value -> Outcome

  function Car(v: Value): Value {
    if v.Pair? then v.car else Nil
  }

  function Cdr(v: Value): Value {
    if v.Pair? then v.cdr else Nil
  }

  function Cadr(v: Value): Value {
    Car(Cdr(v))
  }

  predicate Headed(v: Value, name: string) {
    v.Pair? && Named(v.car, name)
  }

  function List2(a: Value, b: Value): Value {
    Pair(a, Pair(b, Nil))
  }

  function List3(a: Value, b: Value, c: Value): Value {
    Pair(a, List2(b, c))
  }

  // ---- the expander ----

  /** `qq_expand`. */
  function Expand(t: Value, depth: nat): Value
    decreases t
  {
    if !t.Pair? then List2(Sym("quote"), t)
    else if Named(t.car, "unquote") then
      if depth == 0 then Cadr(t)
      else List2(Sym("quote"), List2(Sym("unquote"), if t.cdr.Pair? then Expand(t.cdr.car, depth - 1)
          else List2(Sym("quote"), Nil)))
    else if Named(t.car, "quasiquote") then
      List2(Sym("quote"), List2(Sym("quasiquote"), if t.cdr.Pair? then Expand(t.cdr.car, depth + 1)
          else List2(Sym("quote"), Nil)))
    else if Headed(t.car, "unquote-splicing") then
      List3(Sym("append"), Cadr(t.car), if !IsTrue(t.cdr) then Nil else Expand(t.cdr, depth))
    else
      List3(Sym("cons"), Expand(t.car, depth),
            if !IsTrue(t.cdr) then List2(Sym("quote"), Nil) else Expand(t.cdr, depth))
  }

  // ---- evaluation ----

  /** `append` of two arguments: elements only, and an error if either is no list. */
  function Append(a: Value, b: Value): Outcome {
    if NotList(a) || NotList(b) then Error else Val(ListOf(Elements(a) + Elements(b)))
  }

  predicate NotList(v: Value) {
    !v.Nil? && !v.Pair?
  }

  /** Is the form a call `(name a b)`? */
  predicate Call2(e: Value, name: string) {
    Headed(e, name) && e.cdr.Pair? && e.cdr.cdr.Pair? && e.cdr.cdr.cdr.Nil?
  }

  /** Arguments are evaluated left to right, and the first error is the outcome.  A first argument to `append`
      that is no list is reported before the second is evaluated. */
  function Eval(ev: Evaluator, e: Value): Outcome
    decreases e
  {
    if e.Nil? then Val(Nil)
    else if Headed(e, "quote") then Val(Cadr(e))
    else if Call2(e, "cons") then
      var a := Eval(ev, e.cdr.car);
      if a.Error? then Error else
      var b := Eval(ev, e.cdr.cdr.car);
      if b.Error? then Error else Val(Pair(a.value, b.value))
    else if Call2(e, "append") then
      var a := Eval(ev, e.cdr.car);
      if a.Error? || NotList(a.value) then Error else
      var b := Eval(ev, e.cdr.cdr.car);
      if b.Error? then Error else Append(a.value, b.value)
    else ev(e)
  }

  // ---- filling the template directly ----

  /** The template with its unquotes replaced by their values and spliced lists put in place. */
  function Fill(ev: Evaluator, t: Value): Outcome
    decreases t, 1
  {
    if !t.Pair? then Val(t)
    else if Named(t.car, "unquote") then Eval(ev, Cadr(t))
    else FillElements(ev, t)
  }

  function FillElements(ev: Evaluator, t: Value): Outcome
    requires t.Pair?
    decreases t, 0
  {
    if Headed(t.car, "unquote-splicing") then
      var xs := Eval(ev, Cadr(t.car));
      if xs.Error? || NotList(xs.value) then Error else
      var rest := Fill(ev, t.cdr);
      if rest.Error? || NotList(rest.value) then Error else Val(ListOf(Elements(xs.value) + Elements(rest.value)))
    else
      var x := Fill(ev, t.car);
      if x.Error? then Error else
      var rest := Fill(ev, t.cdr);
      if rest.Error? then Error else Val(Pair(x.value, rest.value))
  }

  /** No quasiquotation outside the unquoted expressions, and dotted tails are true. */
  predicate Flat(t: Value) {
    t.Pair? ==>
      && !Named(t.car, "quasiquote")
      && (Named(t.car, "unquote")
          || ((Headed(t.car, "unquote-splicing") || Flat(t.car)) && Flat(t.cdr) && (t.cdr.Nil? || IsTrue(t.cdr))))
  }

  lemma EvalCons(ev: Evaluator, a: Value, b: Value)
    ensures Eval(ev, List3(Sym("cons"), a, b)) ==
            if Eval(ev, a).Error? || Eval(ev, b).Error? then Error else Val(Pair(Eval(ev, a).value, Eval(ev, b).value))
  {
  }

  lemma EvalAppend(ev: Evaluator, a: Value, b: Value)
    ensures Eval(ev, List3(Sym("append"), a, b)) ==
            if Eval(ev, a).Error? || NotList(Eval(ev, a).value) || Eval(ev, b).Error? then Error
            else Append(Eval(ev, a).value, Eval(ev, b).value)
  {
  }

  /** Evaluating the expansion fills the template. */
  lemma {:induction false} ExpansionFills(ev: Evaluator, t: Value)
    requires Flat(t)
    ensures Eval(ev, Expand(t, 0)) == Fill(ev, t)
    decreases t
  {
    if !t.Pair? || Named(t.car, "unquote") {
    } else if Headed(t.car, "unquote-splicing") {
      ExpansionFills(ev, t.cdr);
      EvalAppend(ev, Cadr(t.car), if !IsTrue(t.cdr) then Nil else Expand(t.cdr, 0));
    } else {
      ExpansionFills(ev, t.car);
      ExpansionFills(ev, t.cdr);
      EvalCons(ev, Expand(t.car, 0), if !IsTrue(t.cdr) then List2(Sym("quote"), Nil) else Expand(t.cdr, 0));
    }
  }

  /** A false atom in a dotted tail is lost, whatever stands before it: the condition on tails is needed at every
      pair.  After a spliced list, filling would be an error, and the expansion is none. */
  lemma FalseTailLost(ev: Evaluator, a: Value, z: Value)
    requires !z.Pair? && !z.Nil? && !IsTrue(z) && !Named(a, "unquote") && !Named(a, "quasiquote")
    requires Headed(a, "unquote-splicing") || Flat(a)
    ensures var filled := Eval(ev, Expand(Pair(a, z), 0));
            if Headed(a, "unquote-splicing") then
              var xs := Eval(ev, Cadr(a));
              && Fill(ev, Pair(a, z)) == Error
              && (xs.Val? && !NotList(xs.value) ==> filled == Val(ListOf(Elements(xs.value))))
            else
              var x := Fill(ev, a);
              x.Val? ==> filled == Val(Pair(x.value, Nil)) && Fill(ev, Pair(a, z)) == Val(Pair(x.value, z))
  {
    assert Fill(ev, z) == Val(z);
    if Headed(a, "unquote-splicing") {
      EvalAppend(ev, Cadr(a), Nil);
      assert Expand(Pair(a, z), 0) == List3(Sym("append"), Cadr(a), Nil);
      var xs := Eval(ev, Cadr(a));
      if xs.Val? {
        assert Elements(xs.value) + [] == Elements(xs.value);
      }
    } else {
      ExpansionFills(ev, a);
      EvalCons(ev, Expand(a, 0), List2(Sym("quote"), Nil));
      assert Expand(Pair(a, z), 0) == List3(Sym("cons"), Expand(a, 0), List2(Sym("quote"), Nil));
    }
  }

  // ---- nested templates ----

  /** A nested quasiquotation is not filled: whatever the language evaluates to, the value is the mark and the code
      that the template inside expands to, one level deeper. */
  lemma NestedStays(ev: Evaluator, x: Value)
    ensures Eval(ev, Expand(List2(Sym("quasiquote"), x), 0)) == Val(List2(Sym("quasiquote"), Expand(x, 1)))
  {
  }

  /** So an unquote of an unquote inside one, whose expression belongs to the outer template, is not evaluated
      either; and below a second one the expansion leaves its own quotes in the value. */
  lemma NestedUnquotes(ev: Evaluator, x: Value)
    requires !x.Pair?
    ensures var u := List2(Sym("unquote"), List2(Sym("unquote"), x));
            var q := Sym("quote");
            && Eval(ev, Expand(List2(Sym("quasiquote"), u), 0))
              == Val(List2(Sym("quasiquote"), List2(q, List2(Sym("unquote"), x))))
            && Eval(ev, Expand(List2(Sym("quasiquote"), List2(Sym("quasiquote"), u)), 0))
              == Val(List2(Sym("quasiquote"), List2(q, List2(Sym("quasiquote"),
                     List2(q, List2(Sym("unquote"), List2(q, List2(Sym("unquote"), List2(q, x)))))))))
    ensures Expand(List2(Sym("unquote"), x), 1) == List2(Sym("quote"), List2(Sym("unquote"), List2(Sym("quote"), x)))
  {
    var one := List2(Sym("unquote"), x);
    var u := List2(Sym("unquote"), one);
    assert Expand(one, 0) == x && Expand(x, 0) == List2(Sym("quote"), x);
    assert Expand(one, 1) == List2(Sym("quote"), List2(Sym("unquote"), Expand(x, 0)));
    assert Expand(u, 1) == List2(Sym("quote"), List2(Sym("unquote"), Expand(one, 0)));
    assert Expand(u, 2) == List2(Sym("quote"), List2(Sym("unquote"), Expand(one, 1)));
    NestedStays(ev, u);
    NestedStays(ev, List2(Sym("quasiquote"), u));
  }

  // ---- proper lists ----

  /** What one element of a template list contributes to the filled list. */
  function Contribution(ev: Evaluator, x: Value): (r: seq<Value>)
  {
    if Headed(x, "unquote-splicing") then
      var xs := Eval(ev, Cadr(x));
      if xs.Val? then Elements(xs.value) else []
    else
      var v := Fill(ev, x);
      if v.Val? then [v.value] else []
  }

  function Contributions(ev: Evaluator, xs: seq<Value>): seq<Value> {
    if xs == [] then [] else Contribution(ev, xs[0]) + Contributions(ev, xs[1..])
  }

  /** A tail that starts with one of these symbols would be read as a dotted unquote. */
  predicate PlainTails(t: Value) {
    t.Pair? ==> !Named(t.car, "unquote") && !Named(t.car, "quasiquote") && PlainTails(t.cdr)
  }

  /** A filled proper list is the concatenation of what its elements contribute, each in its place. */
  lemma {:induction false} FillProper(ev: Evaluator, t: Value)
    requires IsList(t) && PlainTails(t) && Fill(ev, t).Val?
    ensures IsList(Fill(ev, t).value) && Elements(Fill(ev, t).value) == Contributions(ev, Elements(t))
    decreases t
  {
    if t.Pair? {
      assert FillElements(ev, t).Val?;
      assert Elements(t)[0] == t.car && Elements(t)[1..] == Elements(t.cdr);
      assert Fill(ev, t.cdr).Val?;
      FillProper(ev, t.cdr);
      if Headed(t.car, "unquote-splicing") {
        var xs := Eval(ev, Cadr(t.car)).value;
        ElementsListOf(Elements(xs) + Elements(Fill(ev, t.cdr).value));
        ListOfList(Elements(xs) + Elements(Fill(ev, t.cdr).value));
      }
    }
  }

  lemma {:induction false} ListOfList(vs: seq<Value>)
    ensures IsList(ListOf(vs))
  {
    if vs != [] {
      ListOfList(vs[1..]);
    }
  }
}
