/** Values of the language, as far as templates, patterns and comprehensions look at them. */
module Values {
  /** `nil` is the empty list; `Opaque` stands for every other kind of value, with its truth. */
  datatype Value =
    | Nil
    | True
    | Fix(n: int)
    | Flt(f: real)
    | Str(text: string)
    | Sym(name: string)
    | Pair(car: Value, cdr: Value)
    | Vec(elems: seq<Value>)
    | Done                              // the generators' exhaustion sentinel
    | Err(code: nat)                    // an error value
    | Opaque(id: nat, truth: bool)

  /** `istrue`. */
  predicate IsTrue(v: Value) {
    match v
    case Nil => false
    case True => true
    case Fix(n) => n != 0
    case Flt(f) => f != 0.0
    case Str(t) => t != ""
    case Sym(t) => t != "nil"
    case Pair(_, _) => true
    case Vec(es) => es != []
    case Done => true
    case Err(_) => false
    case Opaque(_, b) => b
  }

  predicate Named(v: Value, name: string) {
    v == Sym(name)
  }

  /** The elements of a list, up to an improper tail. */
  function Elements(v: Value): seq<Value> {
    if v.Pair? then [v.car] + Elements(v.cdr) else []
  }

  function ListOf(vs: seq<Value>): Value {
    if vs == [] then Nil else Pair(vs[0], ListOf(vs[1..]))
  }

  lemma {:induction false} ElementsListOf(vs: seq<Value>)
    ensures Elements(ListOf(vs)) == vs
  {
    if vs != [] {
      ElementsListOf(vs[1..]);
    }
  }

  predicate IsList(v: Value) {
    v.Nil? || (v.Pair? && IsList(v.cdr))
  }

  lemma {:induction false} ListOfElements(v: Value)
    requires IsList(v)
    ensures ListOf(Elements(v)) == v
  {
    if v.Pair? {
      ListOfElements(v.cdr);
      assert Elements(v)[1..] == Elements(v.cdr);
    }
  }
}
