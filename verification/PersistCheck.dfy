/** What the check before writing passes, said by the places inside a value. */
module PersistCheck {
  import opened Wrappers
  import opened Persist

  /** One hop into a value: to a pair's head, to its tail, or to an element. */
  datatype Hop = ToHead | ToTail | ToElem(i: nat)

  /** What a hop leads to; nothing inside a lambda, a macro or an unchecked container. */
  function Part(c: Codec, v: Val, hop: Hop): Option<Val> {
    match v
    case Cell(t, _, l, r) =>
      if t != PAIR_TAG || hop.ToElem? then None else if hop.ToHead? then l else r
    case Group(t, es) => if t !in c.unchecked && hop.ToElem? && hop.i < |es| then Some(es[hop.i]) else None
    case _ => None
  }

  function At(c: Codec, v: Val, path: seq<Hop>): Option<Val> {
    if path == [] then Some(v) else
    match Part(c, v, path[0])
    case None => None
    case Some(w) => At(c, w, path[1..])
  }

  /** The next cell of the same list is no deeper than this one; every other hop goes one level down. */
  function Down(w: Val, hop: Hop): nat {
    if hop.ToTail? && w.Cell? && w.tag == PAIR_TAG then 0 else 1
  }

  /** How deep the place at the end of a path is. */
  function Level(c: Codec, v: Val, path: seq<Hop>): nat
    requires At(c, v, path).Some?
  {
    if path == [] then 0
    else var w := Part(c, v, path[0]).value; Down(w, path[0]) + Level(c, w, path[1..])
  }

  /** No place in the value is deeper than that. */
  ghost predicate Within(c: Codec, v: Val, depth: int) {
    forall path: seq<Hop> | At(c, v, path).Some? :: Level(c, v, path) <= depth
  }

  lemma PartWithin(c: Codec, v: Val, hop: Hop, depth: int)
    requires Within(c, v, depth) && Part(c, v, hop).Some?
    ensures var w := Part(c, v, hop).value; Within(c, w, depth - Down(w, hop))
  {
    var w := Part(c, v, hop).value;
    forall path: seq<Hop> | At(c, w, path).Some? ensures Level(c, w, path) <= depth - Down(w, hop) {
      var longer := [hop] + path;
      assert longer[0] == hop && longer[1..] == path;
      assert Level(c, v, longer) <= depth;
    }
  }

  /** The check passes a value that can be written and is shallow. */
  lemma {:induction false} ShallowPasses(c: Codec, s: Session, v: Val, depth: nat)
    requires CodecOk(c) && Known(c, s, v) && Writable(c, s, v) && Within(c, v, DUMP_DEPTH - depth)
    ensures Dumpable(c, s, v, depth)
    decreases v, 1
  {
    assert At(c, v, []).Some? && Level(c, v, []) == 0;
    match v
    case Cell(t, _, _, _) =>
      if t == PAIR_TAG {
        ShallowListPasses(c, s, v, depth);
      }
    case Group(t, es) =>
      if t !in c.unchecked {
        forall i | 0 <= i < |es| ensures Dumpable(c, s, es[i], depth + 1) {
          PartWithin(c, v, ToElem(i), DUMP_DEPTH - depth);
          ShallowPasses(c, s, es[i], depth + 1);
        }
      }
    case _ =>
  }

  lemma {:induction false} ShallowListPasses(c: Codec, s: Session, v: Val, depth: nat)
    requires CodecOk(c) && Known(c, s, v) && Writable(c, s, v) && Within(c, v, DUMP_DEPTH - depth)
    requires v.Cell? && v.tag == PAIR_TAG
    ensures DumpableList(c, s, v, depth)
    decreases v, 0
  {
    if v.left.Some? {
      PartWithin(c, v, ToHead, DUMP_DEPTH - depth);
      ShallowPasses(c, s, v.left.value, depth + 1);
    }
    if v.right.Some? {
      PartWithin(c, v, ToTail, DUMP_DEPTH - depth);
      if v.right.value.Cell? && v.right.value.tag == PAIR_TAG {
        ShallowListPasses(c, s, v.right.value, depth);
      } else {
        ShallowPasses(c, s, v.right.value, depth + 1);
      }
    }
  }

  /** What passes is shallow. */
  lemma {:induction false} PassesShallow(c: Codec, s: Session, v: Val, depth: nat, path: seq<Hop>)
    requires Dumpable(c, s, v, depth) && At(c, v, path).Some?
    ensures Level(c, v, path) <= DUMP_DEPTH - depth
    decreases v, 1
  {
    if path != [] {
      match v
      case Cell(_, _, _, _) => PassesShallowList(c, s, v, depth, path);
      case Group(_, es) =>
        var w := es[path[0].i];
        assert Dumpable(c, s, w, depth + 1);
        PassesShallow(c, s, w, depth + 1, path[1..]);
      case _ =>
    }
  }

  lemma {:induction false} PassesShallowList(c: Codec, s: Session, v: Val, depth: nat, path: seq<Hop>)
    requires v.Cell? && depth <= DUMP_DEPTH && DumpableList(c, s, v, depth) && At(c, v, path).Some?
    ensures Level(c, v, path) <= DUMP_DEPTH - depth
    decreases v, 0
  {
    if path != [] {
      var w := Part(c, v, path[0]).value;
      if Down(w, path[0]) == 0 {
        PassesShallowList(c, s, w, depth, path[1..]);
      } else {
        PassesShallow(c, s, w, depth + 1, path[1..]);
      }
    }
  }

  /** The check passes exactly the shallow values that can be written, among those it looks into everywhere. */
  lemma PassesExactly(c: Codec, s: Session, v: Val)
    requires CodecOk(c) && Known(c, s, v)
    ensures Writable(c, s, v) && Within(c, v, 512) ==> Dumpable(c, s, v, 0)
    ensures Dumpable(c, s, v, 0) ==> Within(c, v, 512)
    ensures Checked(c, v) ==> (Dumpable(c, s, v, 0) <==> Writable(c, s, v) && Within(c, v, 512))
  {
    if Writable(c, s, v) && Within(c, v, DUMP_DEPTH) {
      ShallowPasses(c, s, v, 0);
    }
    if Dumpable(c, s, v, 0) {
      forall path: seq<Hop> | At(c, v, path).Some? ensures Level(c, v, path) <= DUMP_DEPTH {
        PassesShallow(c, s, v, 0, path);
      }
      if Checked(c, v) {
        CheckedWrites(c, s, v, 0);
      }
    }
  }
}
