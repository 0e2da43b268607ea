/**
 Reference counting on a bare graph: `out[i]` lists the references node `i` owns.

 A *token* is a counted reference that is not an edge: one held by the C stack, the VM stack, a
 global table or another thread, or one that an operation in progress has taken over from a
 dying owner and still has to drop.  The nodes in `torn` are being torn down: their references
 have been turned into tokens, and nothing refers to them any more.
 */
module RefGraph {
  type Node = nat
  type Adjacency = seq<seq<Node>>

  /** The references to `n` owned by those of the first `i` nodes in `from`; node `j` owns `out[j]`. */
  ghost function CountUpTo(out: Adjacency, from: set<Node>, i: nat, n: Node): nat
    requires i <= |out|
  {
    if i == 0 then 0
    else CountUpTo(out, from, i - 1, n) + (if i - 1 in from then multiset(out[i - 1])[n] else 0)
  }
  lemma {:induction false} CountUpToCongruent(out: Adjacency, out': Adjacency, from: set<Node>, from': set<Node>,
                                              i: nat, n: Node)
    requires i <= |out| && i <= |out'|
    requires forall j | 0 <= j < i :: (j in from <==> j in from') && (j in from ==> out[j] == out'[j])
    ensures CountUpTo(out, from, i, n) == CountUpTo(out', from', i, n)
  {
    if i != 0 {
      CountUpToCongruent(out, out', from, from', i - 1, n);
    }
  }

  lemma {:induction false} CountUpToRemove(out: Adjacency, from: set<Node>, k: Node, i: nat, n: Node)
    requires i <= |out| && k < |out| && k in from
    ensures CountUpTo(out, from, i, n)
         == CountUpTo(out, from - {k}, i, n) + (if k < i then multiset(out[k])[n] else 0)
  {
    if i == k + 1 {
      CountUpToCongruent(out, out, from, from - {k}, k, n);
    } else if i != 0 {
      CountUpToRemove(out, from, k, i - 1, n);
    }
  }

  lemma {:induction false} CountUpToWitness(out: Adjacency, from: set<Node>, i: nat, n: Node) returns (m: Node)
    requires i <= |out| && CountUpTo(out, from, i, n) > 0
    ensures m < i && m in from && n in out[m]
  {
    if i - 1 in from && n in out[i - 1] {
      m := i - 1;
    } else {
      m := CountUpToWitness(out, from, i - 1, n);
    }
  }

  /** The number of references to `n` owned by nodes of `from`, with multiplicity. */
  ghost function InEdges(out: Adjacency, from: set<Node>, n: Node): nat {
    CountUpTo(out, from, |out|, n)
  }

  lemma InEdgesCongruent(out: Adjacency, out': Adjacency, from: set<Node>, n: Node)
    requires |out| == |out'|
    requires forall j | 0 <= j < |out| && j in from :: out[j] == out'[j]
    ensures InEdges(out, from, n) == InEdges(out', from, n)
  {
    CountUpToCongruent(out, out', from, from, |out|, n);
  }

  /** An owner contributes exactly its own references. */
  lemma InEdgesRemove(out: Adjacency, from: set<Node>, k: Node, n: Node)
    requires k < |out| && k in from
    ensures InEdges(out, from, n) == InEdges(out, from - {k}, n) + multiset(out[k])[n]
  {
    CountUpToRemove(out, from, k, |out|, n);
  }

  lemma InEdgesAdd(out: Adjacency, from: set<Node>, k: Node, n: Node)
    requires k < |out| && k !in from
    ensures InEdges(out, from + {k}, n) == InEdges(out, from, n) + multiset(out[k])[n]
  {
    assert from + {k} - {k} == from;
    InEdgesRemove(out, from + {k}, k, n);
  }

  lemma {:induction false} CountUpToUnion(out: Adjacency, a: set<Node>, b: set<Node>, i: nat, n: Node)
    requires i <= |out| && a !! b
    ensures CountUpTo(out, a + b, i, n) == CountUpTo(out, a, i, n) + CountUpTo(out, b, i, n)
  {
    if i != 0 {
      CountUpToUnion(out, a, b, i - 1, n);
    }
  }

  lemma InEdgesUnion(out: Adjacency, a: set<Node>, b: set<Node>, n: Node)
    requires a !! b
    ensures InEdges(out, a + b, n) == InEdges(out, a, n) + InEdges(out, b, n)
  {
    CountUpToUnion(out, a, b, |out|, n);
  }

  lemma {:induction false} CountUpToSum(out: Adjacency, x: Adjacency, y: Adjacency, from: set<Node>, i: nat, n: Node)
    requires i <= |out| == |x| == |y|
    requires forall j | 0 <= j < i :: out[j] == x[j] + y[j]
    ensures CountUpTo(out, from, i, n) == CountUpTo(x, from, i, n) + CountUpTo(y, from, i, n)
  {
    if i != 0 {
      CountUpToSum(out, x, y, from, i - 1, n);
    }
  }

  /** A positive count has an owner, and an owner makes the count positive. */
  lemma InEdgesPositive(out: Adjacency, from: set<Node>, n: Node)
    ensures InEdges(out, from, n) > 0 <==> exists m: Node :: m < |out| && m in from && n in out[m]
  {
    if InEdges(out, from, n) > 0 {
      var m := CountUpToWitness(out, from, |out|, n);
    }
    if m: Node :| m < |out| && m in from && n in out[m] {
      InEdgesRemove(out, from, m, n);
    }
  }

  // ---- the reference-count invariant ----

  /** How many references there are to `n`: edges of intact live nodes, and tokens. */
  ghost function Refs(out: Adjacency, live: set<Node>, torn: set<Node>, tokens: multiset<Node>, n: Node): nat {
    InEdges(out, live - torn, n) + tokens[n]
  }

  ghost predicate Counted(out: Adjacency, nref: seq<int>, live: set<Node>, torn: set<Node>, tokens: multiset<Node>,
      n: Node) {
    if n in live - torn then
      n < |nref| && nref[n] == Refs(out, live, torn, tokens, n) > 0
    else
      Refs(out, live, torn, tokens, n) == 0
  }

  /** Every mortal node that is alive has a count equal to the number of its references, and that
      number is positive; nothing refers to a dead or dying node.  Immortal nodes (nil, t and the
      generator sentinel) are never counted and never die. */
  ghost predicate Consistent(out: Adjacency, nref: seq<int>, live: set<Node>, immortal: set<Node>,
                             torn: set<Node>, tokens: multiset<Node>) {
    && |out| == |nref|
    && (forall n | n in live :: n < |out|)
    && torn <= live && immortal <= live && immortal !! torn
    && (forall n: Node | n < |out| && n !in live :: out[n] == [])
    && (forall n | n in immortal :: n < |nref| && nref[n] > 0)
    && (forall n: Node {:trigger Counted(out, nref, live, torn, tokens, n)} ::
          n !in immortal ==> Counted(out, nref, live, torn, tokens, n))
  }

  /** A reference to an immortal costs nothing to drop. */
  lemma DropImmortal(out: Adjacency, nref: seq<int>, live: set<Node>, immortal: set<Node>,
                     torn: set<Node>, tokens: multiset<Node>, n: Node)
    requires Consistent(out, nref, live, immortal, torn, tokens)
    requires n in tokens && n in immortal
    ensures Consistent(out, nref, live, immortal, torn, tokens - multiset{n})
  {
    forall m: Node | m !in immortal
      ensures Counted(out, nref, live, torn, tokens - multiset{n}, m)
    {
      assert Counted(out, nref, live, torn, tokens, m);
    }
  }

  /** A token is only ever held on a live node that is not being torn down. */
  lemma TokenTarget(out: Adjacency, nref: seq<int>, live: set<Node>, immortal: set<Node>,
                    torn: set<Node>, tokens: multiset<Node>, n: Node)
    requires Consistent(out, nref, live, immortal, torn, tokens)
    requires n in tokens
    ensures n in live && n !in torn && n < |nref| && nref[n] > 0
    ensures n !in immortal ==> nref[n] >= tokens[n]
  {
    assert n !in immortal ==> Counted(out, nref, live, torn, tokens, n);
  }

  /** An edge of an intact live node leads to such a node. */
  lemma EdgeTarget(out: Adjacency, nref: seq<int>, live: set<Node>, immortal: set<Node>,
                   torn: set<Node>, tokens: multiset<Node>, m: Node, n: Node)
    requires Consistent(out, nref, live, immortal, torn, tokens)
    requires m in live && m !in torn && m < |out| && n in out[m]
    ensures n in live && n !in torn && n < |nref| && nref[n] > 0
  {
    InEdgesPositive(out, live - torn, n);
    assert n !in immortal ==> Counted(out, nref, live, torn, tokens, n);
  }

  /** Dropping one of several references is a plain decrement. */
  lemma DropShared(out: Adjacency, nref: seq<int>, live: set<Node>, immortal: set<Node>,
                   torn: set<Node>, tokens: multiset<Node>, n: Node)
    requires Consistent(out, nref, live, immortal, torn, tokens)
    requires n in tokens && n !in immortal && n < |nref| && nref[n] > 1
    ensures Consistent(out, nref[n := nref[n] - 1], live, immortal, torn, tokens - multiset{n})
  {
    forall m: Node | m !in immortal
      ensures Counted(out, nref[n := nref[n] - 1], live, torn, tokens - multiset{n}, m)
    {
      assert Counted(out, nref, live, torn, tokens, m);
    }
  }

  /** When every reference to `n` is a token, `n` can be torn down: those tokens vanish with it
      and the references it owns become tokens. */
  lemma BeginTeardown(out: Adjacency, nref: seq<int>, nref': seq<int>, live: set<Node>, immortal: set<Node>,
                      torn: set<Node>, tokens: multiset<Node>, n: Node)
    requires Consistent(out, nref, live, immortal, torn, tokens)
    requires n !in immortal && n < |nref| && 0 < nref[n] == tokens[n]
    requires |nref'| == |nref| && forall m | 0 <= m < |nref| && m != n :: nref'[m] == nref[m]
    ensures n in live && n !in torn
    ensures Consistent(out, nref', live, immortal, torn + {n}, tokens[n := 0] + multiset(out[n]))
  {
    assert Counted(out, nref, live, torn, tokens, n);
    var tokens' := tokens[n := 0] + multiset(out[n]);
    forall m: Node | m !in immortal
      ensures Counted(out, nref', live, torn + {n}, tokens', m)
    {
      assert Counted(out, nref, live, torn, tokens, m);
      assert live - (torn + {n}) == live - torn - {n};
      InEdgesRemove(out, live - torn, n, m);
    }
  }

  /** The end of a teardown: the node is emptied and dead. */
  lemma FinishTeardown(out: Adjacency, nref: seq<int>, nref': seq<int>, live: set<Node>, immortal: set<Node>,
                       torn: set<Node>, tokens: multiset<Node>, n: Node)
    requires Consistent(out, nref, live, immortal, torn, tokens)
    requires n in torn && n < |out|
    requires |nref'| == |nref| && forall m | 0 <= m < |nref| && m != n :: nref'[m] == nref[m]
    ensures Consistent(out[n := []], nref', live - {n}, immortal, torn - {n}, tokens)
  {
    assert live - {n} - (torn - {n}) == live - torn;
    forall m: Node | m !in immortal
      ensures Counted(out[n := []], nref', live - {n}, torn - {n}, tokens, m)
    {
      assert Counted(out, nref, live, torn, tokens, m);
      InEdgesCongruent(out, out[n := []], live - torn, m);
    }
  }

  /** Cutting an edge hands the reference to whoever cut it. */
  lemma SeverEdge(out: Adjacency, nref: seq<int>, live: set<Node>, immortal: set<Node>,
                  torn: set<Node>, tokens: multiset<Node>, m: Node, kept: seq<Node>, n: Node)
    requires Consistent(out, nref, live, immortal, torn, tokens)
    requires m in live && m !in torn && m < |out|
    requires multiset(out[m]) == multiset(kept) + multiset{n}
    ensures Consistent(out[m := kept], nref, live, immortal, torn, tokens + multiset{n})
  {
    forall k: Node | k !in immortal
      ensures Counted(out[m := kept], nref, live, torn, tokens + multiset{n}, k)
    {
      assert Counted(out, nref, live, torn, tokens, k);
      InEdgesRemove(out, live - torn, m, k);
      InEdgesRemove(out[m := kept], live - torn, m, k);
      InEdgesCongruent(out, out[m := kept], live - torn - {m}, k);
    }
  }

  /** What a node being torn down looks like does not matter. */
  lemma ChangeTorn(out: Adjacency, out': Adjacency, nref: seq<int>, live: set<Node>, immortal: set<Node>,
                   torn: set<Node>, tokens: multiset<Node>)
    requires Consistent(out, nref, live, immortal, torn, tokens)
    requires |out'| == |out| && forall m | 0 <= m < |out| && m !in torn :: out'[m] == out[m]
    ensures Consistent(out', nref, live, immortal, torn, tokens)
  {
    forall m: Node | m !in immortal
      ensures Counted(out', nref, live, torn, tokens, m)
    {
      assert Counted(out, nref, live, torn, tokens, m);
      InEdgesCongruent(out, out', live - torn, m);
    }
  }

  // ---- allocation ----

  /** A dead node nobody refers to can be added to the graph. */
  lemma ExtendDead(out: Adjacency, nref: seq<int>, live: set<Node>, immortal: set<Node>,
                   torn: set<Node>, tokens: multiset<Node>, k: int)
    requires Consistent(out, nref, live, immortal, torn, tokens)
    ensures Consistent(out + [[]], nref + [k], live, immortal, torn, tokens)
  {
    forall m: Node | m !in immortal
      ensures Counted(out + [[]], nref + [k], live, torn, tokens, m)
    {
      assert Counted(out, nref, live, torn, tokens, m);
      CountUpToCongruent(out, out + [[]], live - torn, live - torn, |out|, m);
      assert |out| !in live - torn;
      assert InEdges(out + [[]], live - torn, m) == CountUpTo(out + [[]], live - torn, |out|, m);
    }
  }

  /** A dead node comes to life holding one new reference to `up`, and the caller holds one to it. */
  lemma Revive(out: Adjacency, nref: seq<int>, live: set<Node>, immortal: set<Node>,
               torn: set<Node>, tokens: multiset<Node>, e: Node, up: seq<Node>, nref': seq<int>)
    requires Consistent(out, nref, live, immortal, torn, tokens)
    requires e < |out| && e !in live && |up| <= 1
    requires up != [] ==> up[0] in live - torn && up[0] !in immortal
    requires |nref'| == |nref| && forall m: Node | m < |nref| ::
               nref'[m] == if m == e then 1 else if up == [m] then nref[m] + 1 else nref[m]
    ensures Consistent(out[e := up], nref', live + {e}, immortal, torn, tokens + multiset{e})
  {
    var out', live', tokens' := out[e := up], live + {e}, tokens + multiset{e};
    assert live' - torn == (live - torn) + {e};
    forall m: Node | m !in immortal
      ensures Counted(out', nref', live', torn, tokens', m)
    {
      assert Counted(out, nref, live, torn, tokens, m);
      InEdgesCongruent(out, out', live - torn, m);
      InEdgesAdd(out', live - torn, e, m);
      assert multiset(up)[m] == if up == [m] then 1 else 0;
    }
  }

  /** Taking one more reference to a live node. */
  lemma Retain(out: Adjacency, nref: seq<int>, live: set<Node>, immortal: set<Node>,
               torn: set<Node>, tokens: multiset<Node>, n: Node)
    requires Consistent(out, nref, live, immortal, torn, tokens)
    requires n in live - torn && n < |nref|
    ensures Consistent(out, nref[n := nref[n] + 1], live, immortal, torn, tokens + multiset{n})
  {
    forall m: Node | m !in immortal
      ensures Counted(out, nref[n := nref[n] + 1], live, torn, tokens + multiset{n}, m)
    {
      assert Counted(out, nref, live, torn, tokens, m);
    }
  }

  // ---- reachability ----

  /** `p` follows edges, starting from `from`. */
  ghost predicate Path(out: Adjacency, from: iset<Node>, p: seq<Node>) {
    && p != [] && p[0] in from
    && (forall i | 0 <= i < |p| - 1 :: p[i] < |out| && p[i + 1] in out[p[i]])
  }

  ghost predicate Reachable(out: Adjacency, from: iset<Node>, n: Node) {
    exists p :: Path(out, from, p) && p[|p| - 1] == n
  }

  lemma ReachableStart(out: Adjacency, from: iset<Node>, n: Node)
    requires n in from
    ensures Reachable(out, from, n)
  {
    assert Path(out, from, [n]);
  }

  lemma ReachableStep(out: Adjacency, from: iset<Node>, m: Node, n: Node)
    requires Reachable(out, from, m) && m < |out| && n in out[m]
    ensures Reachable(out, from, n)
  {
    var p :| Path(out, from, p) && p[|p| - 1] == m;
    assert Path(out, from, p + [n]);
  }

  lemma PathPrefix(out: Adjacency, from: iset<Node>, p: seq<Node>)
    requires Path(out, from, p) && |p| > 1
    ensures Path(out, from, p[..|p| - 1]) && p[..|p| - 1][|p| - 2] == p[|p| - 2]
    ensures p[|p| - 2] < |out| && p[|p| - 1] in out[p[|p| - 2]]
  {
    assert p[|p| - 2 + 1] in out[p[|p| - 2]];
  }

  /** A set that contains the starting points and is closed under edges contains all that is
      reachable. */
  lemma {:induction false} ReachableInClosed(out: Adjacency, from: iset<Node>, p: seq<Node>, closed: iset<Node>)
    requires Path(out, from, p)
    requires forall n | n in from :: n in closed
    requires forall m: Node, n: Node | m in closed && m < |out| && n in out[m] :: n in closed
    ensures forall i | 0 <= i < |p| :: p[i] in closed
    decreases |p|
  {
    if |p| > 1 {
      ReachableInClosed(out, from, p[..|p| - 1], closed);
      assert p[|p| - 2] == p[..|p| - 1][|p| - 2];
      assert p[|p| - 2 + 1] in out[p[|p| - 2]];
    }
  }
}
