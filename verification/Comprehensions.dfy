/**
 Comprehensions: the eager driver (`compr_run`, for lists) and the lazy pipeline that `gfor` builds out of
 generators.  Bodies are pure: a predicate and an expression are functions of the element.
 */
module Comprehensions {
  import opened Wrappers
  import opened Values

  type Fn = Value -> Value

  // ---- the eager driver ----

  datatype Result = Items(items: seq<Value>) | Failed(error: Value)

  /** Is the element kept?  The driver keeps whatever the predicate does not answer with nil. */
  predicate Keeps(pred: Option<Fn>, x: Value) {
    pred.Some? ==> pred.value(x) != Nil
  }

  /** The result over a sequence of elements: the first error, or the kept elements' values in order. */
  function Eager(pred: Option<Fn>, expr: Fn, xs: seq<Value>): Result {
    if xs == [] then Items([])
    else if pred.Some? && pred.value(xs[0]).Err? then Failed(pred.value(xs[0]))
    else if !Keeps(pred, xs[0]) then Eager(pred, expr, xs[1..])
    else if expr(xs[0]).Err? then Failed(expr(xs[0]))
    else
      var rest := Eager(pred, expr, xs[1..]);
      if rest.Failed? then rest else Items([expr(xs[0])] + rest.items)
  }

  function Answer(r: Result): Value {
    if r.Failed? then r.error else ListOf(r.items)
  }

  function Then(acc: seq<Value>, r: Result): Result {
    if r.Failed? then r else Items(acc + r.items)
  }

  /** The error that an element raises: the predicate's, or the expression's if the element is kept. */
  function Raised(pred: Option<Fn>, expr: Fn, x: Value): Option<Value> {
    if pred.Some? && pred.value(x).Err? then Some(pred.value(x))
    else if (pred.None? || pred.value(x) != Nil) && expr(x).Err? then Some(expr(x)) else None
  }

  /** Element `k` raises the error, and none before it raises one. */
  predicate FirstRaise(pred: Option<Fn>, expr: Fn, xs: seq<Value>, k: nat, e: Value) {
    && k < |xs| && Raised(pred, expr, xs[k]) == Some(e)
    && forall j | 0 <= j < k :: Raised(pred, expr, xs[j]).None?
  }

  /** The driver fails exactly with the error of the first element that raises one. */
  lemma {:induction false} EagerFails(pred: Option<Fn>, expr: Fn, xs: seq<Value>, e: Value)
    ensures Eager(pred, expr, xs) == Failed(e) <==> exists k: nat :: FirstRaise(pred, expr, xs, k, e)
  {
    if xs != [] {
      var x, more := xs[0], xs[1..];
      EagerFails(pred, expr, more, e);
      if Raised(pred, expr, x).Some? {
        assert Raised(pred, expr, x) == Some(e) ==> FirstRaise(pred, expr, xs, 0, e);
      } else {
        if Eager(pred, expr, more) == Failed(e) {
          var k: nat :| FirstRaise(pred, expr, more, k, e);
          assert FirstRaise(pred, expr, xs, k + 1, e);
        }
        if exists k: nat :: FirstRaise(pred, expr, xs, k, e) {
          var k: nat :| FirstRaise(pred, expr, xs, k, e);
          assert FirstRaise(pred, expr, more, k - 1, e);
        }
      }
    }
  }

  const NOT_A_LIST := Err(0)

  lemma EagerStep(pred: Option<Fn>, expr: Fn, w: Value, acc: seq<Value>)
    requires w.Pair?
    ensures var r := Then(acc, Eager(pred, expr, Elements(w)));
            if pred.Some? && pred.value(w.car).Err? then r == Failed(pred.value(w.car))
            else if !Keeps(pred, w.car) then r == Then(acc, Eager(pred, expr, Elements(w.cdr)))
            else if expr(w.car).Err? then r == Failed(expr(w.car))
            else r == Then(acc + [expr(w.car)], Eager(pred, expr, Elements(w.cdr)))
  {
    hide Eager, Elements;
    ElementsPair(w);
    var rest := Eager(pred, expr, Elements(w.cdr));
    EagerOne(pred, expr, w.car, Elements(w.cdr));
    if rest.Items? {
      assert acc + ([expr(w.car)] + rest.items) == acc + [expr(w.car)] + rest.items;
    }
  }

  lemma ElementsPair(w: Value)
    requires w.Pair?
    ensures Elements(w) == [w.car] + Elements(w.cdr)
  {
  }

  /** The eager driver on one more element in front. */
  lemma EagerOne(pred: Option<Fn>, expr: Fn, x: Value, xs: seq<Value>)
    ensures Eager(pred, expr, [x] + xs) ==
            if pred.Some? && pred.value(x).Err? then Failed(pred.value(x))
            else if !Keeps(pred, x) then Eager(pred, expr, xs)
            else if expr(x).Err? then Failed(expr(x))
            else Then([expr(x)], Eager(pred, expr, xs))
  {
    assert ([x] + xs)[1..] == xs;
  }

  lemma EagerEnds(pred: Option<Fn>, expr: Fn, w: Value, acc: seq<Value>)
    ensures !w.Pair? ==> Then(acc, Eager(pred, expr, Elements(w))) == Items(acc)
    ensures Then([], Eager(pred, expr, Elements(w))) == Eager(pred, expr, Elements(w))
  {
  }

  /** `compr_run` for lists: one pass over the collection's cells. */
  method Lfor(coll: Value, pred: Option<Fn>, expr: Fn) returns (ret: Value)
    ensures ret == if coll.Err? then coll else if !coll.Nil? && !coll.Pair? then NOT_A_LIST
                   else Answer(Eager(pred, expr, Elements(coll)))
  {
    hide Eager, ListOf, Elements, Then;
    if coll.Err? {
      return coll;
    }
    if !coll.Nil? && !coll.Pair? {
      return NOT_A_LIST;
    }
    var acc: seq<Value> := [];
    var w := coll;
    EagerEnds(pred, expr, coll, acc);
    while w.Pair?
      invariant Then(acc, Eager(pred, expr, Elements(w))) == Eager(pred, expr, Elements(coll))
      decreases w
    {
      EagerStep(pred, expr, w, acc);
      var x := w.car;
      w := w.cdr;
      if pred.Some? {
        var p := pred.value(x);
        if p.Err? {
          return p;
        }
        if p == Nil {
          continue;
        }
      }
      var v := expr(x);
      if v.Err? {
        return v;
      }
      acc := acc + [v];
    }
    EagerEnds(pred, expr, w, acc);
    ret := ListOf(acc);
  }

  // ---- generators ----

  /** What mapping makes of what the inner generator yields; the sentinel passes through. */
  function Mapped(f: Fn, ys: seq<Value>): (r: seq<Value>)
    ensures |r| == |ys|
  {
    if ys == [] then [] else [if ys[0].Done? then Done else f(ys[0])] + Mapped(f, ys[1..])
  }

  /** What filtering lets through; an error of the predicate takes the element's place. */
  function Filtered(p: Fn, ys: seq<Value>): seq<Value> {
    if ys == [] then []
    else if ys[0].Done? then [Done] + Filtered(p, ys[1..])
    else if p(ys[0]).Err? then [p(ys[0])] + Filtered(p, ys[1..])
    else if IsTrue(p(ys[0])) then [ys[0]] + Filtered(p, ys[1..])
    else Filtered(p, ys[1..])
  }

  const FIX_LIMIT: int := 0x1000_0000_0000_0000

  predicate Fits(n: int) {
    -FIX_LIMIT <= n < FIX_LIMIT
  }

  function Range(cur: int, end: int, step: int): seq<Value>
    requires step != 0
    decreases if step > 0 then end - cur else cur - end
  {
    if (step > 0 && cur >= end) || (step < 0 && cur <= end) then [] else [Fix(cur)] + Range(cur + step, end, step)
  }

  /** On the near side of the end. */
  predicate Before(n: int, end: int, step: int) {
    if step > 0 then n < end else n > end
  }

  /** A range is `cur`, `cur + step`, and so on, as long as that is on the near side of the end. */
  lemma {:induction false} RangeExact(cur: int, end: int, step: int)
    requires step != 0
    ensures var r := Range(cur, end, step);
            && (forall i {:trigger r[i]} | 0 <= i < |r| ::
                  r[i] == Fix(cur + i * step) && Before(cur + i * step, end, step))
            && !Before(cur + |r| * step, end, step)
    decreases if step > 0 then end - cur else cur - end
  {
    var r := Range(cur, end, step);
    if r == [] {
      assert |r| * step == 0;
    } else {
      RangeExact(cur + step, end, step);
      var more := Range(cur + step, end, step);
      assert r[1..] == more;
      forall i | 0 <= i < |r| ensures r[i] == Fix(cur + i * step) && Before(cur + i * step, end, step) {
        if i == 0 {
          assert i * step == 0;
        } else {
          OneMore(i, step);
          assert more[i - 1] == r[i];
        }
      }
      OneMore(|r|, step);
    }
  }

  lemma OneMore(i: int, step: int)
    ensures step + (i - 1) * step == i * step
  {
  }

  datatype Kind = FromList | FromRange | ByMap | ByFilter

  class Gen {
    const kind: Kind
    var cur: Value
    var at: int
    var end: int
    const step: int
    const fn: Fn
    const inner: Gen?
    ghost const height: nat
    ghost const repr: set<object>

    ghost predicate Valid()
      reads this, repr
      decreases height
    {
      && this in repr
      && (kind.FromRange? ==> step != 0 && Fits(at) && Fits(end))
      && (kind.ByMap? || kind.ByFilter? ==>
            inner != null && inner in repr && inner.repr <= repr && this !in inner.repr && inner.height < height
                && inner.Valid())
    }

    /** Everything that this generator will still yield, in order. */
    ghost function Yields(): seq<Value>
      requires Valid()
      reads this, repr
      decreases height
    {
      match kind
      case FromList => Elements(cur)
      case FromRange => Range(at, end, step)
      case ByMap => Mapped(fn, inner.Yields())
      case ByFilter => Filtered(fn, inner.Yields())
    }

    constructor OfList(coll: Value)
      ensures Valid() && fresh(repr) && Yields() == Elements(coll)
    {
      kind, cur, at, end, step, fn, inner := FromList, coll, 0, 0, 1, x => x, null;
      height := 0;
      repr := {this};
    }

    constructor OfRange(start: int, stop: int, stride: int)
      requires stride != 0 && Fits(start) && Fits(stop)
      ensures Valid() && fresh(repr) && Yields() == Range(start, stop, stride)
    {
      kind, cur, at, end, step, fn, inner := FromRange, Nil, start, stop, stride, x => x, null;
      height := 0;
      repr := {this};
    }

    constructor OfMap(f: Fn, g: Gen)
      requires g.Valid()
      ensures Valid() && fresh(repr - g.repr) && Yields() == Mapped(f, g.Yields())
    {
      kind, cur, at, end, step, fn, inner := ByMap, Nil, 0, 0, 1, f, g;
      height := g.height + 1;
      repr := {this} + g.repr;
    }

    constructor OfFilter(p: Fn, g: Gen)
      requires g.Valid()
      ensures Valid() && fresh(repr - g.repr) && Yields() == Filtered(p, g.Yields())
    {
      kind, cur, at, end, step, fn, inner := ByFilter, Nil, 0, 0, 1, p, g;
      height := g.height + 1;
      repr := {this} + g.repr;
    }

    /** `alc_gen_step`: the next value, or the sentinel when there is none. */
    method Next() returns (v: Value)
      requires Valid()
      modifies repr
      ensures Valid()
      ensures old(Yields()) == [] ==> v == Done && Yields() == []
      ensures old(Yields()) != [] ==> v == old(Yields())[0] && Yields() == old(Yields())[1..]
      decreases height
    {
      match kind
      case FromList => v := NextCell();
      case FromRange => v := NextNumber();
      case ByMap =>
        v := inner.Next();
        if v != Done {
          v := fn(v);
        }
      case ByFilter =>
        while true
          invariant Valid()
          invariant Filtered(fn, inner.Yields()) == old(Yields())
          decreases |inner.Yields()|
        {
          ghost var ys := inner.Yields();
          v := inner.Next();
          if v == Done {
            return;
          }
          var ok := fn(v);
          if ok.Err? {
            return ok;
          }
          if IsTrue(ok) {
            return v;
          }
        }
    }

    /** The list generator: the cursor moves one cell on. */
    method NextCell() returns (v: Value)
      requires Valid() && kind.FromList?
      modifies this
      ensures Valid()
      ensures old(Yields()) == [] ==> v == Done && Yields() == []
      ensures old(Yields()) != [] ==> v == old(Yields())[0] && Yields() == old(Yields())[1..]
    {
      if !cur.Pair? {
        return Done;
      }
      v, cur := cur.car, cur.cdr;
    }

    /** The range generator: a step that would leave the fixnums ends the range. */
    method NextNumber() returns (v: Value)
      requires Valid() && kind.FromRange?
      modifies this
      ensures Valid()
      ensures old(Yields()) == [] ==> v == Done && Yields() == []
      ensures old(Yields()) != [] ==> v == old(Yields())[0] && Yields() == old(Yields())[1..]
    {
      if (step > 0 && at >= end) || (step <= 0 && at <= end) {
        return Done;
      }
      v := Fix(at);
      assert !Fits(at + step) ==> Range(at + step, end, step) == [];
      assert Range(end, end, step) == [];
      at := if Fits(at + step) then at + step else end;
    }
  }

  /** What draining collects: everything before the first sentinel, unless an error comes first. */
  function Collected(ys: seq<Value>): Result {
    if ys == [] || ys[0].Done? then Items([])
    else if ys[0].Err? then Failed(ys[0])
    else var rest := Collected(ys[1..]); if rest.Failed? then rest else Items([ys[0]] + rest.items)
  }

  /** `gencollect_cmd`. */
  method Drain(g: Gen) returns (ret: Value)
    requires g.Valid()
    modifies g.repr
    ensures ret == Answer(Collected(old(g.Yields())))
  {
    var acc: seq<Value> := [];
    while true
      invariant g.Valid()
      invariant Then(acc, Collected(g.Yields())) == Collected(old(g.Yields()))
      decreases |g.Yields()|
    {
      ghost var ys := g.Yields();
      var v := g.Next();
      if v == Done {
        assert acc + [] == acc;
        return ListOf(acc);
      }
      if v.Err? {
        return v;
      }
      acc := acc + [v];
    }
  }

  /** `gforcmd`: builds the pipeline and runs nothing. */
  method Gfor(coll: Value, pred: Option<Fn>, expr: Fn) returns (g: Gen)
    ensures g.Valid() && fresh(g.repr)
    ensures g.Yields() == Mapped(expr, if pred.Some? then Filtered(pred.value, Elements(coll)) else Elements(coll))
  {
    g := new Gen.OfList(coll);
    if pred.Some? {
      g := new Gen.OfFilter(pred.value, g);
    }
    g := new Gen.OfMap(expr, g);
  }

  // ---- lazy equals eager ----

  /** The bodies raise no error and never answer with the sentinel, nor is it among the elements. */
  ghost predicate Quiet(pred: Option<Fn>, expr: Fn, xs: seq<Value>) {
    forall x | x in xs ::
      && !x.Done? && (pred.Some? ==> !pred.value(x).Err?)
      && (Keeps(pred, x) ==> !expr(x).Err? && !expr(x).Done?)
  }

  /** The predicate answers with nil or with something true. */
  predicate Decided(pred: Option<Fn>, x: Value) {
    pred.Some? ==> pred.value(x) == Nil || IsTrue(pred.value(x))
  }

  /** What the pipeline yields over the elements. */
  function Lazy(pred: Option<Fn>, expr: Fn, xs: seq<Value>): seq<Value> {
    Mapped(expr, if pred.Some? then Filtered(pred.value, xs) else xs)
  }

  /** The pipeline never collects more than the eager driver, and as much exactly when the predicate is
      decided on every element; then the two agree. */
  lemma {:induction false} TwinLengths(pred: Option<Fn>, expr: Fn, xs: seq<Value>)
    requires Quiet(pred, expr, xs)
    ensures var e, l := Eager(pred, expr, xs), Collected(Lazy(pred, expr, xs));
            && e.Items? && l.Items? && |l.items| <= |e.items|
            && (|l.items| == |e.items| <==> forall x | x in xs :: Decided(pred, x))
            && ((forall x | x in xs :: Decided(pred, x)) ==> l == e)
  {
    if xs != [] {
      var x := xs[0];
      assert x in xs && xs == [x] + xs[1..];
      TwinLengths(pred, expr, xs[1..]);
      LazyStep(pred, expr, xs);
    }
  }

  lemma LazyStep(pred: Option<Fn>, expr: Fn, xs: seq<Value>)
    requires xs != [] && !xs[0].Done? && (pred.Some? ==> !pred.value(xs[0]).Err?)
    ensures Lazy(pred, expr, xs) ==
            (if pred.Some? && !IsTrue(pred.value(xs[0])) then [] else [expr(xs[0])]) + Lazy(pred, expr, xs[1..])
  {
    if pred.Some? && IsTrue(pred.value(xs[0])) {
      assert Filtered(pred.value, xs)[1..] == Filtered(pred.value, xs[1..]);
    }
  }

  /** Draining the generator gives the eager list, for quiet bodies, exactly when the predicate answers every
      element with nil or with something true. */
  lemma LazyIsEager(pred: Option<Fn>, expr: Fn, xs: seq<Value>)
    requires Quiet(pred, expr, xs)
    ensures Collected(Lazy(pred, expr, xs)) == Eager(pred, expr, xs) <==> forall x | x in xs :: Decided(pred, x)
  {
    TwinLengths(pred, expr, xs);
  }

  /** `gfor`, drained. */
  method CollectGfor(coll: Value, pred: Option<Fn>, expr: Fn) returns (ret: Value)
    ensures ret == Answer(Collected(Lazy(pred, expr, Elements(coll))))
    ensures Quiet(pred, expr, Elements(coll)) && (forall x | x in Elements(coll) :: Decided(pred, x)) ==>
              ret == Answer(Eager(pred, expr, Elements(coll)))
  {
    var g := Gfor(coll, pred, expr);
    ret := Drain(g);
    if Quiet(pred, expr, Elements(coll)) {
      LazyIsEager(pred, expr, Elements(coll));
    }
  }
}
