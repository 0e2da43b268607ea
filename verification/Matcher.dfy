/**
 The structural matcher (`alc_match_pat`): a pattern is matched against a value from left to right, and
 the variables it meets are bound in an environment with a few inline slots and an overflow table.
 */
module Matcher {
  import opened Wrappers
  import opened Values

  datatype Verdict = Yes | No | Broken

  /** How a guard `(? pred)` judges a value. */
  type Judge = (Value, Value) -> Verdict

  datatype Binding = Binding(name: string, value: Value)

  datatype Outcome = Matched(bs: seq<Binding>) | NoMatch | Malformed

  predicate Headed(p: Value, name: string) {
    p.Pair? && p.car == Sym(name)
  }

  /** A symbol that a value is bound to. */
  predicate IsVar(p: Value) {
    p.Sym? && p.name != "_" && p.name != "nil"
  }

  function CarOf(p: Value): Value {
    if p.Pair? then p.car else Nil
  }

  // ---- the matcher as a function ----

  function Match(ask: Judge, p: Value, v: Value): Outcome
    decreases p, 1
  {
    if p == Sym("_") then Matched([])
    else if !IsTrue(p) then (if !IsTrue(v) then Matched([]) else NoMatch)
    else if p.True? || p.Fix? || p.Flt? || p.Str? then (if v == p then Matched([]) else NoMatch)
    else if p.Sym? then Matched([Binding(p.name, v)])
    else if !p.Pair? then NoMatch
    else if Headed(p, "quote") then
      if !p.cdr.Pair? then Malformed else if p.cdr.car.Sym? && v == p.cdr.car then Matched([]) else NoMatch
    else if Headed(p, "?") then
      if !p.cdr.Pair? then Malformed else
      match ask(p.cdr.car, v)
      case Yes => Matched([])
      case No => NoMatch
      case Broken => Malformed
    else if Headed(p, "cons") then
      if !p.cdr.Pair? || !p.cdr.cdr.Pair? then Malformed
      else if !v.Pair? then NoMatch
      else Both(Match(ask, p.cdr.car, v.car), Match(ask, p.cdr.cdr.car, v.cdr))
    else if Headed(p, "list") then MatchList(ask, p.cdr, v)
    else if Headed(p, "vec") then (if v.Vec? then MatchVec(ask, p.cdr, v.elems) else NoMatch)
    else NoMatch
  }

  /** The second match counts only if the first succeeds. */
  function Both(a: Outcome, b: Outcome): Outcome {
    if a.Matched? then (if b.Matched? then Matched(a.bs + b.bs) else b) else a
  }

  /** `alc_match_list_pats`: as many elements as patterns, and what is left of the value is false. */
  function MatchList(ask: Judge, ps: Value, v: Value): Outcome
    decreases ps, 0
  {
    if !ps.Pair? then (if !IsTrue(v) then Matched([]) else NoMatch)
    else if !v.Pair? then NoMatch
    else Both(Match(ask, ps.car, v.car), MatchList(ask, ps.cdr, v.cdr))
  }

  function MatchVec(ask: Judge, ps: Value, vs: seq<Value>): Outcome
    decreases ps, 0
  {
    if !ps.Pair? then (if vs == [] then Matched([]) else NoMatch)
    else if vs == [] then NoMatch
    else Both(Match(ask, ps.car, vs[0]), MatchVec(ask, ps.cdr, vs[1..]))
  }

  // ---- what a match means ----

  /** The value is the pattern with its variables replaced by their bindings.  A false literal stands for any
      false value, and what follows a list's last element may be any false value. */
  predicate Instance(ask: Judge, p: Value, b: map<string, Value>, v: Value)
    decreases p, 1
  {
    if p == Sym("_") then true
    else if !IsTrue(p) then !IsTrue(v)
    else if p.True? || p.Fix? || p.Flt? || p.Str? then v == p
    else if p.Sym? then p.name in b && b[p.name] == v
    else if !p.Pair? then false
    else if Headed(p, "quote") then CarOf(p.cdr).Sym? && v == CarOf(p.cdr)
    else if Headed(p, "?") then ask(CarOf(p.cdr), v) == Yes
    else if Headed(p, "cons") then
      && p.cdr.Pair? && p.cdr.cdr.Pair? && v.Pair?
      && Instance(ask, p.cdr.car, b, v.car) && Instance(ask, p.cdr.cdr.car, b, v.cdr)
    else if Headed(p, "list") then InstanceList(ask, p.cdr, b, v)
    else if Headed(p, "vec") then v.Vec? && InstanceVec(ask, p.cdr, b, v.elems)
    else false
  }

  predicate InstanceList(ask: Judge, ps: Value, b: map<string, Value>, v: Value)
    decreases ps, 0
  {
    if !ps.Pair? then !IsTrue(v) else v.Pair? && Instance(ask, ps.car, b, v.car) && InstanceList(ask, ps.cdr, b, v.cdr)
  }

  predicate InstanceVec(ask: Judge, ps: Value, b: map<string, Value>, vs: seq<Value>)
    decreases ps, 0
  {
    if !ps.Pair? then vs == [] else vs != [] && Instance(ask, ps.car, b, vs[0]) && InstanceVec(ask, ps.cdr, b, vs[1..])
  }

  /** The variables of a pattern, in the order they are met. */
  function Vars(p: Value): seq<string>
    decreases p, 1
  {
    if IsVar(p) then [p.name]
    else if Headed(p, "cons") && p.cdr.Pair? && p.cdr.cdr.Pair? then Vars(p.cdr.car) + Vars(p.cdr.cdr.car)
    else if Headed(p, "list") || Headed(p, "vec") then VarsAll(p.cdr)
    else []
  }

  function VarsAll(ps: Value): seq<string>
    decreases ps, 0
  {
    if ps.Pair? then Vars(ps.car) + VarsAll(ps.cdr) else []
  }

  predicate NoRepeat(names: seq<string>) {
    forall i, j | 0 <= i < j < |names| :: names[i] != names[j]
  }

  predicate Linear(p: Value) {
    NoRepeat(Vars(p))
  }

  function Names(bs: seq<Binding>): (r: seq<string>)
    ensures |r| == |bs| && forall i | 0 <= i < |bs| :: r[i] == bs[i].name
  {
    seq(|bs|, i requires 0 <= i < |bs| => bs[i].name)
  }

  function AsMap(bs: seq<Binding>): map<string, Value> {
    if bs == [] then map[] else AsMap(Front(bs))[bs[|bs| - 1].name := bs[|bs| - 1].value]
  }

  function Front(bs: seq<Binding>): seq<Binding>
    requires bs != []
  {
    bs[..|bs| - 1]
  }

  // ---- soundness ----

  /** A match binds exactly the pattern's variables, in order. */
  lemma {:induction false} MatchNames(ask: Judge, p: Value, v: Value)
    ensures Match(ask, p, v).Matched? ==> Names(Match(ask, p, v).bs) == Vars(p)
    decreases p, 1
  {
    if p.Pair? && !Headed(p, "quote") && !Headed(p, "?") {
      if Headed(p, "cons") {
        if p.cdr.Pair? && p.cdr.cdr.Pair? && v.Pair? {
          MatchNames(ask, p.cdr.car, v.car);
          MatchNames(ask, p.cdr.cdr.car, v.cdr);
        }
      } else if Headed(p, "list") {
        MatchListNames(ask, p.cdr, v);
      } else if Headed(p, "vec") && v.Vec? {
        MatchVecNames(ask, p.cdr, v.elems);
      }
    }
  }

  lemma {:induction false} MatchListNames(ask: Judge, ps: Value, v: Value)
    ensures MatchList(ask, ps, v).Matched? ==> Names(MatchList(ask, ps, v).bs) == VarsAll(ps)
    decreases ps, 0
  {
    if ps.Pair? && v.Pair? {
      MatchNames(ask, ps.car, v.car);
      MatchListNames(ask, ps.cdr, v.cdr);
    }
  }

  lemma {:induction false} MatchVecNames(ask: Judge, ps: Value, vs: seq<Value>)
    ensures MatchVec(ask, ps, vs).Matched? ==> Names(MatchVec(ask, ps, vs).bs) == VarsAll(ps)
    decreases ps, 0
  {
    if ps.Pair? && vs != [] {
      MatchNames(ask, ps.car, vs[0]);
      MatchVecNames(ask, ps.cdr, vs[1..]);
    }
  }

  /** Bindings that say what `bs` says, for every name in it. */
  predicate Agrees(b: map<string, Value>, bs: seq<Binding>) {
    forall i | 0 <= i < |bs| :: bs[i].name in b && b[bs[i].name] == bs[i].value
  }

  /** No name is bound twice. */
  predicate Unique(bs: seq<Binding>) {
    forall i, j | 0 <= i < j < |bs| :: bs[i].name != bs[j].name
  }

  lemma UniqueNames(bs: seq<Binding>)
    requires NoRepeat(Names(bs))
    ensures Unique(bs)
  {
    forall i, j | 0 <= i < j < |bs| ensures bs[i].name != bs[j].name {
      assert Names(bs)[i] != Names(bs)[j];
    }
  }

  lemma {:induction false} BoundAt(bs: seq<Binding>, i: nat)
    requires i < |bs| && Unique(bs)
    ensures bs[i].name in AsMap(bs) && AsMap(bs)[bs[i].name] == bs[i].value
  {
    if i < |bs| - 1 {
      BoundAt(Front(bs), i);
      assert Front(bs)[i] == bs[i];
    }
  }

  lemma {:induction false} BoundBy(bs: seq<Binding>, name: string) returns (i: nat)
    requires name in AsMap(bs)
    ensures i < |bs| && bs[i].name == name
  {
    if bs[|bs| - 1].name == name {
      i := |bs| - 1;
    } else {
      i := BoundBy(Front(bs), name);
    }
  }

  lemma LinearMap(bs: seq<Binding>)
    requires Unique(bs)
    ensures Agrees(AsMap(bs), bs)
    ensures forall x :: x in AsMap(bs) <==> x in Names(bs)
  {
    forall i | 0 <= i < |bs| ensures bs[i].name in AsMap(bs) && AsMap(bs)[bs[i].name] == bs[i].value {
      BoundAt(bs, i);
    }
    forall x ensures x in AsMap(bs) <==> x in Names(bs) {
      if x in AsMap(bs) {
        var i := BoundBy(bs, x);
        assert Names(bs)[i] == x;
      }
      if x in Names(bs) {
        var i :| 0 <= i < |bs| && Names(bs)[i] == x;
        BoundAt(bs, i);
      }
    }
  }

  /** The value is an instance of the pattern under any bindings that agree with the match. */
  lemma {:induction false} MatchSound(ask: Judge, p: Value, v: Value, b: map<string, Value>)
    requires Match(ask, p, v).Matched? && Agrees(b, Match(ask, p, v).bs)
    ensures Instance(ask, p, b, v)
    decreases p, 1
  {
    var bs := Match(ask, p, v).bs;
    if p.Pair? && !Headed(p, "quote") && !Headed(p, "?") {
      if Headed(p, "cons") {
        var x, y := Match(ask, p.cdr.car, v.car), Match(ask, p.cdr.cdr.car, v.cdr);
        AgreesParts(b, x.bs, y.bs);
        MatchSound(ask, p.cdr.car, v.car, b);
        MatchSound(ask, p.cdr.cdr.car, v.cdr, b);
      } else if Headed(p, "list") {
        MatchListSound(ask, p.cdr, v, b);
      } else {
        MatchVecSound(ask, p.cdr, v.elems, b);
      }
    } else if IsVar(p) {
      assert bs[0] == Binding(p.name, v);
    }
  }

  lemma AgreesParts(b: map<string, Value>, x: seq<Binding>, y: seq<Binding>)
    requires Agrees(b, x + y)
    ensures Agrees(b, x) && Agrees(b, y)
  {
    forall i | 0 <= i < |x| ensures x[i].name in b && b[x[i].name] == x[i].value {
      assert (x + y)[i] == x[i];
    }
    forall i | 0 <= i < |y| ensures y[i].name in b && b[y[i].name] == y[i].value {
      assert (x + y)[|x| + i] == y[i];
    }
  }

  lemma {:induction false} MatchListSound(ask: Judge, ps: Value, v: Value, b: map<string, Value>)
    requires MatchList(ask, ps, v).Matched? && Agrees(b, MatchList(ask, ps, v).bs)
    ensures InstanceList(ask, ps, b, v)
    decreases ps, 0
  {
    if ps.Pair? {
      AgreesParts(b, Match(ask, ps.car, v.car).bs, MatchList(ask, ps.cdr, v.cdr).bs);
      MatchSound(ask, ps.car, v.car, b);
      MatchListSound(ask, ps.cdr, v.cdr, b);
    }
  }

  lemma {:induction false} MatchVecSound(ask: Judge, ps: Value, vs: seq<Value>, b: map<string, Value>)
    requires MatchVec(ask, ps, vs).Matched? && Agrees(b, MatchVec(ask, ps, vs).bs)
    ensures InstanceVec(ask, ps, b, vs)
    decreases ps, 0
  {
    if ps.Pair? {
      AgreesParts(b, Match(ask, ps.car, vs[0]).bs, MatchVec(ask, ps.cdr, vs[1..]).bs);
      MatchSound(ask, ps.car, vs[0], b);
      MatchVecSound(ask, ps.cdr, vs[1..], b);
    }
  }

  // ---- completeness ----

  /** An instance is matched, and the match finds the bindings that make it one. */
  lemma {:induction false} MatchComplete(ask: Judge, p: Value, v: Value, b: map<string, Value>)
    requires Instance(ask, p, b, v) && (Headed(p, "quote") || Headed(p, "?") ==> p.cdr.Pair?)
    requires Complete(p)
    ensures Match(ask, p, v).Matched? && Agrees(b, Match(ask, p, v).bs)
    decreases p, 1
  {
    if p.Pair? && !Headed(p, "quote") && !Headed(p, "?") {
      if Headed(p, "cons") {
        MatchComplete(ask, p.cdr.car, v.car, b);
        MatchComplete(ask, p.cdr.cdr.car, v.cdr, b);
      } else if Headed(p, "list") {
        MatchListComplete(ask, p.cdr, v, b);
      } else {
        MatchVecComplete(ask, p.cdr, v.elems, b);
      }
    }
  }

  /** Quotes and guards have their argument, and cons patterns their two parts, wherever they stand. */
  predicate Complete(p: Value)
    decreases p, 1
  {
    && (Headed(p, "quote") || Headed(p, "?") ==> p.cdr.Pair?)
    && (Headed(p, "cons") ==> p.cdr.Pair? && p.cdr.cdr.Pair? && Complete(p.cdr.car) && Complete(p.cdr.cdr.car))
    && (Headed(p, "list") || Headed(p, "vec") ==> CompleteAll(p.cdr))
  }

  predicate CompleteAll(ps: Value)
    decreases ps, 0
  {
    ps.Pair? ==> Complete(ps.car) && CompleteAll(ps.cdr)
  }

  lemma {:induction false} MatchListComplete(ask: Judge, ps: Value, v: Value, b: map<string, Value>)
    requires InstanceList(ask, ps, b, v) && CompleteAll(ps)
    ensures MatchList(ask, ps, v).Matched? && Agrees(b, MatchList(ask, ps, v).bs)
    decreases ps, 0
  {
    if ps.Pair? {
      MatchComplete(ask, ps.car, v.car, b);
      MatchListComplete(ask, ps.cdr, v.cdr, b);
    }
  }

  lemma {:induction false} MatchVecComplete(ask: Judge, ps: Value, vs: seq<Value>, b: map<string, Value>)
    requires InstanceVec(ask, ps, b, vs) && CompleteAll(ps)
    ensures MatchVec(ask, ps, vs).Matched? && Agrees(b, MatchVec(ask, ps, vs).bs)
    decreases ps, 0
  {
    if ps.Pair? {
      MatchComplete(ask, ps.car, vs[0], b);
      MatchVecComplete(ask, ps.cdr, vs[1..], b);
    }
  }

  // ---- malformed patterns ----

  /** The matcher meets something malformed: a quote or guard without its argument, a guard that cannot judge, a pair
      pattern without its parts; and what stands before it has matched. */
  predicate Faulty(ask: Judge, p: Value, v: Value)
    decreases p, 1
  {
    if Headed(p, "quote") then !p.cdr.Pair?
    else if Headed(p, "?") then !p.cdr.Pair? || ask(p.cdr.car, v) == Broken
    else if Headed(p, "cons") then
      !p.cdr.Pair? || !p.cdr.cdr.Pair?
      || (v.Pair? && (Faulty(ask, p.cdr.car, v.car)
                      || (Match(ask, p.cdr.car, v.car).Matched? && Faulty(ask, p.cdr.cdr.car, v.cdr))))
    else if Headed(p, "list") then FaultyAll(ask, p.cdr, Elements(v))
    else Headed(p, "vec") && v.Vec? && FaultyAll(ask, p.cdr, v.elems)
  }

  predicate FaultyAll(ask: Judge, ps: Value, vs: seq<Value>)
    decreases ps, 0
  {
    && ps.Pair? && vs != []
    && (Faulty(ask, ps.car, vs[0]) || (Match(ask, ps.car, vs[0]).Matched? && FaultyAll(ask, ps.cdr, vs[1..])))
  }

  /** The matcher calls a pattern malformed exactly if it meets something malformed. */
  lemma {:induction false} MalformedExact(ask: Judge, p: Value, v: Value)
    ensures Match(ask, p, v).Malformed? <==> Faulty(ask, p, v)
    decreases p, 1
  {
    if Headed(p, "cons") && p.cdr.Pair? && p.cdr.cdr.Pair? && v.Pair? {
      MalformedExact(ask, p.cdr.car, v.car);
      MalformedExact(ask, p.cdr.cdr.car, v.cdr);
    } else if Headed(p, "list") {
      MalformedList(ask, p.cdr, v);
    } else if Headed(p, "vec") && v.Vec? {
      MalformedVec(ask, p.cdr, v.elems);
    }
  }

  lemma {:induction false} MalformedList(ask: Judge, ps: Value, v: Value)
    ensures MatchList(ask, ps, v).Malformed? <==> FaultyAll(ask, ps, Elements(v))
    decreases ps, 0
  {
    if ps.Pair? && v.Pair? {
      MalformedExact(ask, ps.car, v.car);
      MalformedList(ask, ps.cdr, v.cdr);
      assert Elements(v)[1..] == Elements(v.cdr);
    }
  }

  lemma {:induction false} MalformedVec(ask: Judge, ps: Value, vs: seq<Value>)
    ensures MatchVec(ask, ps, vs).Malformed? <==> FaultyAll(ask, ps, vs)
    decreases ps, 0
  {
    if ps.Pair? && vs != [] {
      MalformedExact(ask, ps.car, vs[0]);
      MalformedVec(ask, ps.cdr, vs[1..]);
    }
  }

  /** A complete pattern is malformed only through a guard that cannot judge. */
  lemma {:induction false} CompleteFine(ask: Judge, p: Value, v: Value)
    requires Complete(p) && forall a, x :: ask(a, x) != Broken
    ensures !Faulty(ask, p, v)
    decreases p, 1
  {
    if Headed(p, "cons") && v.Pair? {
      CompleteFine(ask, p.cdr.car, v.car);
      CompleteFine(ask, p.cdr.cdr.car, v.cdr);
    } else if Headed(p, "list") {
      CompleteAllFine(ask, p.cdr, Elements(v));
    } else if Headed(p, "vec") && v.Vec? {
      CompleteAllFine(ask, p.cdr, v.elems);
    }
  }

  lemma {:induction false} CompleteAllFine(ask: Judge, ps: Value, vs: seq<Value>)
    requires CompleteAll(ps) && forall a, x :: ask(a, x) != Broken
    ensures !FaultyAll(ask, ps, vs)
    decreases ps, 0
  {
    if ps.Pair? && vs != [] {
      CompleteFine(ask, ps.car, vs[0]);
      CompleteAllFine(ask, ps.cdr, vs[1..]);
    }
  }

  // ---- exactness ----

  ghost predicate HasInstance(ask: Judge, p: Value, v: Value) {
    exists b :: Instance(ask, p, b, v)
  }

  lemma InstanceFound(ask: Judge, p: Value, v: Value, b: map<string, Value>)
    requires Instance(ask, p, b, v)
    ensures HasInstance(ask, p, v)
  {
  }

  /** For a linear pattern, the matcher answers yes exactly when the value is an instance of the pattern, and
      then under the bindings it found, which name the pattern's variables and nothing else. */
  lemma MatchExact(ask: Judge, p: Value, v: Value)
    requires Linear(p)
    ensures Complete(p) ==> (Match(ask, p, v).Matched? <==> HasInstance(ask, p, v))
    ensures Match(ask, p, v).Matched? ==>
              var m := AsMap(Match(ask, p, v).bs);
              Instance(ask, p, m, v) && forall x :: x in m <==> x in Vars(p)
  {
    if Match(ask, p, v).Matched? {
      MatchNames(ask, p, v);
      UniqueNames(Match(ask, p, v).bs);
      LinearMap(Match(ask, p, v).bs);
      MatchSound(ask, p, v, AsMap(Match(ask, p, v).bs));
      InstanceFound(ask, p, v, AsMap(Match(ask, p, v).bs));
    }
    if Complete(p) && HasInstance(ask, p, v) {
      var b :| Instance(ask, p, b, v);
      MatchComplete(ask, p, v, b);
    }
  }

  lemma AsMapSnoc(bs: seq<Binding>, b: Binding)
    ensures AsMap(bs + [b]) == AsMap(bs)[b.name := b.value]
  {
    assert Front(bs + [b]) == bs;
  }

  // ---- the matcher as it runs ----

  const INLINE_SLOTS: nat := 6

  /** The part of an environment that holds bindings: inline slots first, then the overflow table. */
  class Env {
    const keys: array<string>
    const vals: array<Value>
    var used: nat
    var overflow: map<string, Value>
    ghost var bound: seq<Binding>

    ghost predicate Valid()
      reads this, keys, vals
    {
      && keys != vals as object && keys.Length == vals.Length == INLINE_SLOTS && used <= INLINE_SLOTS && used <= |bound|
      && (forall i {:trigger bound[i]} | 0 <= i < used :: bound[i] == Binding(keys[i], vals[i]))
      && (used < INLINE_SLOTS ==> |bound| == used)
      && overflow == AsMap(bound[used..])
    }

    constructor ()
      ensures Valid() && bound == [] && fresh(keys) && fresh(vals)
    {
      keys := new string[INLINE_SLOTS](_ => "");
      vals := new Value[INLINE_SLOTS](_ => Nil);
      used, overflow, bound := 0, map[], [];
    }

    /** `var2env_bind`. */
    method Bind(name: string, v: Value)
      requires Valid()
      modifies this, keys, vals
      ensures Valid() && bound == old(bound) + [Binding(name, v)]
    {
      hide AsMap;
      ghost var next := bound + [Binding(name, v)];
      if used < INLINE_SLOTS {
        keys[used], vals[used] := name, v;
        used := used + 1;
        assert next[used..] == bound[used - 1..];
      } else {
        AsMapSnoc(bound[used..], Binding(name, v));
        overflow := overflow[name := v];
        assert next[used..] == bound[used..] + [Binding(name, v)];
      }
      bound := next;
    }

    /** What a name is bound to: the last inline slot of that name, or else the table's entry. */
    ghost function Looked(name: string): Option<Value>
      requires Valid()
      reads this, keys, vals
    {
      var slot := LastOf(bound[..used], name);
      if slot.Some? then slot else if name in overflow then Some(overflow[name]) else None
    }

    method Lookup(name: string) returns (v: Option<Value>)
      requires Valid()
      ensures v == Looked(name)
    {
      hide AsMap;
      var i: nat := used;
      assert bound[..used] == bound[..i];
      while i > 0
        invariant i <= used && LastOf(bound[..used], name) == LastOf(bound[..i], name)
      {
        assert Front(bound[..i]) == bound[..i - 1];
        i := i - 1;
        if keys[i] == name {
          return Some(vals[i]);
        }
      }
      v := if name in overflow then Some(overflow[name]) else None;
    }

    /** Where no name is bound twice, looking up gives what the name was bound to. */
    lemma LookedUnique(name: string)
      requires Valid() && Unique(bound)
      ensures Looked(name) == if name in AsMap(bound) then Some(AsMap(bound)[name]) else None
    {
      hide AsMap;
      LastOfFinds(bound[..used], name);
      var slot := LastOf(bound[..used], name);
      if slot.Some? {
        var i :| 0 <= i < used && bound[..used][i] == Binding(name, slot.value);
        BoundAt(bound, i);
      } else {
        forall i | 0 <= i < used ensures bound[i].name != name {
          assert bound[..used][i] == bound[i];
        }
        OverflowPart(bound, used, name);
      }
    }

    /** `alc_match_pat`: 1 for a match, with its bindings written behind the old ones; 0 for none; -1 for a
        malformed pattern. */
    method MatchPat(ask: Judge, p: Value, v: Value) returns (r: int)
      requires Valid()
      modifies this, keys, vals
      ensures Valid() && old(bound) <= bound
      ensures r == (match Match(ask, p, v) case Matched(_) => 1 case NoMatch => 0 case Malformed => -1)
      ensures r == 1 ==> bound == old(bound) + Match(ask, p, v).bs
      decreases p, 1
    {
      hide Valid, MatchList, MatchVec, Both, AsMap;
      if p == Sym("_") {
        return 1;
      }
      if !IsTrue(p) {
        return if IsTrue(v) then 0 else 1;
      }
      if p.True? || p.Fix? || p.Flt? || p.Str? {
        return if v == p then 1 else 0;
      }
      if p.Sym? {
        Bind(p.name, v);
        return 1;
      }
      if !p.Pair? {
        return 0;
      }
      if Headed(p, "quote") {
        return if !p.cdr.Pair? then -1 else if p.cdr.car.Sym? && v == p.cdr.car then 1 else 0;
      }
      if Headed(p, "?") {
        if !p.cdr.Pair? {
          return -1;
        }
        var a := ask(p.cdr.car, v);
        return if a.Broken? then -1 else if a.Yes? then 1 else 0;
      }
      if Headed(p, "cons") {
        r := MatchCons(ask, p, v);
        return;
      }
      if Headed(p, "list") {
        r := MatchListPats(ask, p.cdr, v);
        return;
      }
      if Headed(p, "vec") && v.Vec? {
        r := MatchVecPats(ask, p.cdr, v.elems);
        return;
      }
      return 0;
    }

    /** A pair pattern: head, then tail. */
    method MatchCons(ask: Judge, p: Value, v: Value) returns (r: int)
      requires Valid() && Headed(p, "cons")
      modifies this, keys, vals
      ensures Valid() && old(bound) <= bound
      ensures r == (match Match(ask, p, v) case Matched(_) => 1 case NoMatch => 0 case Malformed => -1)
      ensures r == 1 ==> bound == old(bound) + Match(ask, p, v).bs
      decreases p, 0
    {
      hide Valid, MatchList, MatchVec, AsMap;
      if !p.cdr.Pair? || !p.cdr.cdr.Pair? {
        return -1;
      }
      if !v.Pair? {
        return 0;
      }
      r := MatchPat(ask, p.cdr.car, v.car);
      if r <= 0 {
        return;
      }
      r := MatchPat(ask, p.cdr.cdr.car, v.cdr);
    }

    /** `alc_match_list_pats`: the loop over a list pattern. */
    method MatchListPats(ask: Judge, ps: Value, v: Value) returns (r: int)
      requires Valid()
      modifies this, keys, vals
      ensures Valid() && old(bound) <= bound
      ensures r == (match MatchList(ask, ps, v) case Matched(_) => 1 case NoMatch => 0 case Malformed => -1)
      ensures r == 1 ==> bound == old(bound) + MatchList(ask, ps, v).bs
      decreases ps, 0
    {
      hide Valid, Match, AsMap;
      var q, w := ps, v;
      ghost var done: seq<Binding> := [];
      while q.Pair?
        invariant Valid() && bound == old(bound) + done
        invariant MatchList(ask, ps, v) == Both(Matched(done), MatchList(ask, q, w))
        invariant q == ps || (ps decreases to q)
        decreases q
      {
        if !w.Pair? {
          return 0;
        }
        r := MatchPat(ask, q.car, w.car);
        if r <= 0 {
          return;
        }
        BothThree(done, Match(ask, q.car, w.car).bs, MatchList(ask, q.cdr, w.cdr));
        done := done + Match(ask, q.car, w.car).bs;
        q, w := q.cdr, w.cdr;
      }
      return if IsTrue(w) then 0 else 1;
    }

    /** The loop over a vector pattern. */
    method MatchVecPats(ask: Judge, ps: Value, vs: seq<Value>) returns (r: int)
      requires Valid()
      modifies this, keys, vals
      ensures Valid() && old(bound) <= bound
      ensures r == (match MatchVec(ask, ps, vs) case Matched(_) => 1 case NoMatch => 0 case Malformed => -1)
      ensures r == 1 ==> bound == old(bound) + MatchVec(ask, ps, vs).bs
      decreases ps, 0
    {
      hide Valid, Match, AsMap;
      var q, pi := ps, 0;
      ghost var done: seq<Binding> := [];
      while q.Pair?
        invariant Valid() && bound == old(bound) + done && pi <= |vs|
        invariant MatchVec(ask, ps, vs) == Both(Matched(done), MatchVec(ask, q, vs[pi..]))
        invariant q == ps || (ps decreases to q)
        decreases q
      {
        if pi >= |vs| {
          return 0;
        }
        r := MatchPat(ask, q.car, vs[pi]);
        if r <= 0 {
          return;
        }
        BothThree(done, Match(ask, q.car, vs[pi]).bs, MatchVec(ask, q.cdr, vs[pi..][1..]));
        assert vs[pi..][1..] == vs[pi + 1..];
        done := done + Match(ask, q.car, vs[pi]).bs;
        q, pi := q.cdr, pi + 1;
      }
      return if pi == |vs| then 1 else 0;
    }
  }

  function LastOf(bs: seq<Binding>, name: string): Option<Value> {
    if bs == [] then None else if bs[|bs| - 1].name == name then Some(bs[|bs| - 1].value) else LastOf(Front(bs), name)
  }

  lemma {:induction false} LastOfFinds(bs: seq<Binding>, name: string)
    ensures var v := LastOf(bs, name);
            if v.Some? then exists i :: 0 <= i < |bs| && bs[i] == Binding(name, v.value)
            else forall i | 0 <= i < |bs| :: bs[i].name != name
  {
    if bs != [] {
      LastOfFinds(Front(bs), name);
      if bs[|bs| - 1].name == name {
        assert bs[|bs| - 1] == Binding(name, bs[|bs| - 1].value);
      } else if LastOf(Front(bs), name).Some? {
        var i :| 0 <= i < |Front(bs)| && Front(bs)[i] == Binding(name, LastOf(Front(bs), name).value);
        assert bs[i] == Front(bs)[i];
      } else {
        forall i | 0 <= i < |bs| ensures bs[i].name != name {
          if i < |bs| - 1 {
            assert Front(bs)[i] == bs[i];
          }
        }
      }
    }
  }

  /** The names of the environment stand for an instance: each variable of the pattern, and no other name, is looked
      up as what it stands for. */
  ghost predicate Stands(env: Env, p: Value, m: map<string, Value>)
    requires env.Valid()
    reads env, env.keys, env.vals
  {
    && (forall x :: x in m <==> x in Vars(p))
    && (forall x {:trigger env.Looked(x)} :: env.Looked(x) == if x in m then Some(m[x]) else None)
  }

  /** What an instance's bindings are looked up as. */
  lemma ClauseStands(ask: Judge, p: Value, v: Value, env: Env)
    requires Linear(p) && env.Valid() && Match(ask, p, v).Matched? && env.bound == Match(ask, p, v).bs
    ensures var m := AsMap(env.bound); Instance(ask, p, m, v) && Stands(env, p, m)
  {
    hide Match, Instance, HasInstance, Complete, Vars, AsMap;
    var bs := env.bound;
    MatchExact(ask, p, v);
    MatchNames(ask, p, v);
    UniqueNames(bs);
    forall x ensures env.Looked(x) == if x in AsMap(bs) then Some(AsMap(bs)[x]) else None {
      env.LookedUnique(x);
    }
  }

  /** A clause of `match`: the pattern is matched in an environment of its own.  It answers -1 exactly when it meets
      something malformed, and, for a complete pattern, 1 exactly when the value is an instance of the pattern.  After
      a 1 every variable is looked up, in its slot or in the table, as what makes the value an instance. */
  method MatchClause(ask: Judge, p: Value, v: Value) returns (r: int, env: Env)
    requires Linear(p)
    ensures fresh(env) && env.Valid()
    ensures -1 <= r <= 1 && (r == -1 <==> Faulty(ask, p, v))
    ensures Complete(p) ==> (r == 1 <==> HasInstance(ask, p, v))
    ensures r == 1 ==> exists m :: Instance(ask, p, m, v) && Stands(env, p, m)
  {
    hide Match, Instance, Faulty, HasInstance, Complete, Vars, AsMap, Stands;
    env := new Env();
    r := env.MatchPat(ask, p, v);
    MatchExact(ask, p, v);
    MalformedExact(ask, p, v);
    if r == 1 {
      assert env.bound == Match(ask, p, v).bs;
      ClauseStands(ask, p, v, env);
    }
  }

  lemma BothThree(a: seq<Binding>, b: seq<Binding>, c: Outcome)
    ensures Both(Matched(a), Both(Matched(b), c)) == Both(Matched(a + b), c)
  {
    if c.Matched? {
      assert a + (b + c.bs) == a + b + c.bs;
    }
  }

  lemma InRest(bound: seq<Binding>, used: nat, i: nat)
    requires used <= i < |bound| && Unique(bound)
    ensures Unique(bound[used..]) && bound[i].name in AsMap(bound[used..])
        && AsMap(bound[used..])[bound[i].name] == bound[i].value
  {
    hide AsMap;
    var rest := bound[used..];
    assert rest[i - used] == bound[i];
    BoundAt(rest, i - used);
  }

  /** A name that no inline slot has is looked up in the table alone. */
  lemma OverflowPart(bound: seq<Binding>, used: nat, name: string)
    requires used <= |bound| && Unique(bound) && forall i | 0 <= i < used :: bound[i].name != name
    ensures name in AsMap(bound[used..]) <==> name in AsMap(bound)
    ensures name in AsMap(bound) ==> AsMap(bound[used..])[name] == AsMap(bound)[name]
  {
    hide AsMap, Unique;
    if name in AsMap(bound) {
      var i := BoundBy(bound, name);
      BoundAt(bound, i);
      InRest(bound, used, i);
    }
    if name in AsMap(bound[used..]) {
      var i := BoundBy(bound[used..], name);
      BoundAt(bound, used + i);
    }
  }
}
