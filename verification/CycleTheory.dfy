/**
 Trial deletion on the abstract heap.

 The *candidates* are the nodes whose owned references the collector walks: its own walkable
 cells, and the environments it discovers through closures.  A reference it does not count makes
 a candidate's count exceed the counted references; such a candidate is a root.  What marking
 from the roots does not reach is garbage.
 */
module CycleTheory {
  import opened Wrappers
  import opened RefGraph
  import opened HeapModel

  /** `gc_walkable`, for a cell that is not immortal. */
  predicate Walkable(r: Rec) {
    r.Cell? && !r.kind.Opaque?
  }

  /** The collector starts at the walkable cells of its arena. */
  ghost predicate IsStart(lay: Layout, h: Heap, ncells: nat, n: Node) {
    n < ncells && n < |h.rec| && n in h.live && n !in lay.immortal && Walkable(h.rec[n])
  }

  /** `p` leads from such a cell to an environment it captured, to its parent, and so on. */
  ghost predicate UpChain(lay: Layout, h: Heap, ncells: nat, p: seq<Node>) {
    && |p| >= 2 && IsStart(lay, h, ncells, p[0])
    && forall i | 0 <= i < |p| - 1 :: p[i] < |h.rec| && Up(h.rec[p[i]]) == Some(p[i + 1])
  }

  ghost predicate Discoverable(lay: Layout, h: Heap, ncells: nat, v: Node) {
    exists p :: UpChain(lay, h, ncells, p) && p[|p| - 1] == v
  }

  lemma DiscoverCapture(lay: Layout, h: Heap, ncells: nat, c: Node)
    requires IsStart(lay, h, ncells, c) && Up(h.rec[c]).Some?
    ensures Discoverable(lay, h, ncells, Up(h.rec[c]).value)
  {
    assert UpChain(lay, h, ncells, [c, Up(h.rec[c]).value]);
  }

  lemma DiscoverParent(lay: Layout, h: Heap, ncells: nat, v: Node)
    requires Discoverable(lay, h, ncells, v) && v < |h.rec| && Up(h.rec[v]).Some?
    ensures Discoverable(lay, h, ncells, Up(h.rec[v]).value)
  {
    var p :| UpChain(lay, h, ncells, p) && p[|p| - 1] == v;
    assert UpChain(lay, h, ncells, p + [Up(h.rec[v]).value]);
  }

  /** `cand` is the set of candidates of a collector whose arena holds the cells below `ncells`. */
  ghost predicate Candidates(lay: Layout, h: Heap, ncells: nat, cand: set<Node>) {
    && ncells <= |h.rec|
    && (forall n: Node | n < ncells :: h.rec[n].Cell? && (n in cand <==> IsStart(lay, h, ncells, n)))
    && (forall n | n in cand && n >= ncells :: IsEnv(h.rec, n) && n in h.live && Discoverable(lay, h, ncells, n))
    && (forall n | n in cand && n < |h.rec| && Up(h.rec[n]).Some? :: Up(h.rec[n]).value in cand)
  }

  /** The environments among the candidates are exactly those a start cell leads to. */
  lemma {:induction false} CandidateChain(lay: Layout, h: Heap, ncells: nat, cand: set<Node>, p: seq<Node>)
    requires Candidates(lay, h, ncells, cand) && UpChain(lay, h, ncells, p)
    ensures forall i | 0 <= i < |p| :: p[i] in cand
    decreases |p|
  {
    if |p| > 2 {
      CandidateChain(lay, h, ncells, cand, p[..|p| - 1]);
      assert p[|p| - 2] == p[..|p| - 1][|p| - 2];
    }
    assert Up(h.rec[p[|p| - 2]]) == Some(p[|p| - 2 + 1]);
  }

  /** The candidates that something uncounted refers to. */
  ghost predicate IsRoot(h: Heap, cand: set<Node>, n: Node) {
    n in cand && n < |h.nref| && h.nref[n] > InEdges(h.out, cand, n)
  }

  /** `marked` contains the roots and is closed under the references of marked candidates. */
  ghost predicate MarkedClosed(h: Heap, cand: set<Node>, marked: set<Node>) {
    && (forall n: Node {:trigger IsRoot(h, cand, n)} :: IsRoot(h, cand, n) ==> n in marked)
    && (forall m: Node, n: Node {:trigger n in h.out[m]} ::
          m < |h.out| && m in marked && m in cand && n in h.out[m] && n in cand ==> n in marked)
  }

  ghost function Roots(h: Heap, cand: set<Node>): iset<Node> {
    iset n: Node | IsRoot(h, cand, n)
  }

  /** What keeps memory alive from outside the candidates: the nodes a token refers to, and the
      live nodes the collector does not walk (an immortal, a cell of an unwalked kind or of another
      arena, an environment it never discovered). */
  ghost function Outside(h: Heap, cand: set<Node>, tokens: multiset<Node>): iset<Node> {
    iset n: Node | n in tokens || n in h.live - cand
  }

  lemma CandidateMortal(lay: Layout, h: Heap, ncells: nat, cand: set<Node>, tokens: multiset<Node>, n: Node)
    requires HeapInv(lay, h, {}, tokens) && Candidates(lay, h, ncells, cand) && n in cand
    ensures n in h.live && n !in lay.immortal && n < |h.rec|
    ensures h.nref[n] == InEdges(h.out, h.live, n) + tokens[n]
    ensures h.nref[n] == InEdges(h.out, cand, n) + InEdges(h.out, h.live - cand, n) + tokens[n]
  {
    assert n in h.live;
    assert NodeOk(lay, h, n);
    assert Counted(h.out, h.nref, h.live, {}, tokens, n);
    assert h.live - {} == h.live && cand + (h.live - cand) == h.live;
    InEdgesUnion(h.out, cand, h.live - cand, n);
  }

  /** The counts of the collector never exceed the reference counts they are compared with. */
  lemma CountFits(lay: Layout, h: Heap, ncells: nat, cand: set<Node>, tokens: multiset<Node>, n: Node)
    requires HeapInv(lay, h, {}, tokens) && Candidates(lay, h, ncells, cand) && n in cand
    ensures InEdges(h.out, cand, n) <= h.nref[n]
  {
    CandidateMortal(lay, h, ncells, cand, tokens, n);
  }

  /** Nothing outside the unmarked candidates refers to one of them: no token, no surviving node,
      no node the collector does not walk. */
  lemma DeadIsolated(lay: Layout, h: Heap, ncells: nat, cand: set<Node>, marked: set<Node>, tokens: multiset<Node>,
      n: Node)
    requires HeapInv(lay, h, {}, tokens) && Candidates(lay, h, ncells, cand) && MarkedClosed(h, cand, marked)
    requires n in cand - marked
    ensures tokens[n] == 0
    ensures forall m: Node | m in h.live && m < |h.out| && n in h.out[m] :: m in cand - marked
  {
    CandidateMortal(lay, h, ncells, cand, tokens, n);
    assert !IsRoot(h, cand, n);
    InEdgesPositive(h.out, h.live - cand, n);
  }

  /** Exactness: a candidate is unmarked if and only if no path leads to it from a reference held
      outside the graph or from a live node the collector does not walk. */
  lemma DeadExactly(lay: Layout, h: Heap, ncells: nat, cand: set<Node>, marked: set<Node>, tokens: multiset<Node>,
      n: Node)
    requires HeapInv(lay, h, {}, tokens) && Candidates(lay, h, ncells, cand) && MarkedClosed(h, cand, marked)
    requires forall m | m in marked * cand :: Reachable(h.out, Roots(h, cand), m)
    requires n in cand
    ensures n in marked <==> Reachable(h.out, Outside(h, cand, tokens), n)
  {
    var ext := Outside(h, cand, tokens);
    var dead := cand - marked;
    if n in marked {
      RootsReachable(lay, h, ncells, cand, tokens, n);
    }
    if Reachable(h.out, ext, n) {
      var p :| Path(h.out, ext, p) && p[|p| - 1] == n;
      var alive := iset m: Node | m in h.live && m !in dead;
      forall m | m in ext
        ensures m in alive
      {
        if m in tokens {
          TokenOk(lay, h, {}, tokens, m);
        }
        if m in dead {
          DeadIsolated(lay, h, ncells, cand, marked, tokens, m);
        }
      }
      forall m: Node, k: Node | m in alive && m < |h.out| && k in h.out[m]
        ensures k in alive
      {
        EdgeTarget(h.out, h.nref, h.live, lay.immortal, {}, tokens, m, k);
        if k in dead {
          DeadIsolated(lay, h, ncells, cand, marked, tokens, k);
        }
      }
      ReachableInClosed(h.out, ext, p, alive);
    }
  }

  /** Whatever is reachable from a root is reachable from outside. */
  lemma RootsReachable(lay: Layout, h: Heap, ncells: nat, cand: set<Node>, tokens: multiset<Node>, n: Node)
    requires HeapInv(lay, h, {}, tokens) && Candidates(lay, h, ncells, cand)
    requires Reachable(h.out, Roots(h, cand), n)
    ensures Reachable(h.out, Outside(h, cand, tokens), n)
  {
    var ext := Outside(h, cand, tokens);
    var roots := Roots(h, cand);
    var p :| Path(h.out, roots, p) && p[|p| - 1] == n;
    var reach := iset m: Node | Reachable(h.out, ext, m);
    forall r | r in roots
      ensures r in reach
    {
      CandidateMortal(lay, h, ncells, cand, tokens, r);
      if r in tokens {
        ReachableStart(h.out, ext, r);
      } else {
        InEdgesPositive(h.out, h.live - cand, r);
        var m :| m < |h.out| && m in h.live - cand && r in h.out[m];
        ReachableStart(h.out, ext, m);
        ReachableStep(h.out, ext, m, r);
      }
    }
    forall m: Node, k: Node | m in reach && m < |h.out| && k in h.out[m]
      ensures k in reach
    {
      ReachableStep(h.out, ext, m, k);
    }
    ReachableInClosed(h.out, roots, p, reach);
  }

  // ---- what may be reclaimed, told by kind ----

  /** A cell of the arena that the collector has to see through: a live, mortal container or closure. */
  ghost predicate Collectable(lay: Layout, h: Heap, ncells: nat, n: Node) {
    && n < ncells && n < |h.rec| && n in h.live && n !in lay.immortal
    && h.rec[n].Cell? && (h.rec[n].kind.Container? || h.rec[n].kind.Closure?)
  }

  /** `p` leads from such a closure to the environment it captured and on to the parents of that. */
  ghost predicate ClosureChain(lay: Layout, h: Heap, ncells: nat, p: seq<Node>) {
    && |p| >= 2 && Collectable(lay, h, ncells, p[0]) && h.rec[p[0]].kind.Closure? && h.rec[p[0]].capture == Some(p[1])
    && forall i {:trigger p[i]} | 1 <= i < |p| - 1 :: ParentAt(h, p, i)
  }

  ghost predicate ParentAt(h: Heap, p: seq<Node>, i: nat)
    requires i + 1 < |p|
  {
    IsEnv(h.rec, p[i]) && h.rec[p[i]].root == Some(p[i + 1])
  }

  ghost predicate OnChain(lay: Layout, h: Heap, ncells: nat, v: Node) {
    exists p :: ClosureChain(lay, h, ncells, p) && p[|p| - 1] == v
  }

  ghost predicate Reclaimable(lay: Layout, h: Heap, ncells: nat, n: Node) {
    Collectable(lay, h, ncells, n) || OnChain(lay, h, ncells, n)
  }

  /** What holds memory from beyond the collector's reach: a token, an immortal, a cell of an opaque kind or of another
      arena, an environment on no such chain. */
  ghost function Beyond(lay: Layout, h: Heap, ncells: nat, tokens: multiset<Node>): iset<Node> {
    iset n: Node | n in tokens || (n in h.live && HoldsBeyond(lay, h, ncells, n))
  }

  ghost predicate HoldsBeyond(lay: Layout, h: Heap, ncells: nat, n: Node) {
    || n in lay.immortal
    || (n < |h.rec| && h.rec[n].Cell? && (h.rec[n].kind.Opaque? || n >= ncells))
    || (IsEnv(h.rec, n) && !OnChain(lay, h, ncells, n))
  }

  /** The reclaimable cells that nothing beyond leads to. */
  ghost function Garbage(lay: Layout, h: Heap, ncells: nat, tokens: multiset<Node>): set<Node> {
    set n | n in h.live && n < ncells && Collectable(lay, h, ncells, n)
        && !Reachable(h.out, Beyond(lay, h, ncells, tokens), n)
  }

  /** The collector's own chains are those of closures: only a closure captures an environment. */
  lemma ChainsAgree(lay: Layout, h: Heap, ncells: nat, tokens: multiset<Node>, p: seq<Node>)
    requires HeapInv(lay, h, {}, tokens)
    ensures UpChain(lay, h, ncells, p) <==> ClosureChain(lay, h, ncells, p)
  {
    if UpChain(lay, h, ncells, p) {
      assert Up(h.rec[p[0]]) == Some(p[0 + 1]);
      assert NodeOk(lay, h, p[0]);
      forall i | 1 <= i < |p| - 1 ensures ParentAt(h, p, i) {
        assert Up(h.rec[p[i - 1]]) == Some(p[i - 1 + 1]) && Up(h.rec[p[i]]) == Some(p[i + 1]);
        assert NodeOk(lay, h, p[i - 1]);
      }
    }
    if ClosureChain(lay, h, ncells, p) {
      forall i | 0 <= i < |p| - 1 ensures p[i] < |h.rec| && Up(h.rec[p[i]]) == Some(p[i + 1]) {
        assert i > 0 ==> ParentAt(h, p, i);
      }
    }
  }

  /** The candidates are the reclaimable nodes, and what holds from outside them is what holds from beyond. */
  lemma CandidatesAre(lay: Layout, h: Heap, ncells: nat, cand: set<Node>, tokens: multiset<Node>)
    requires HeapInv(lay, h, {}, tokens) && Candidates(lay, h, ncells, cand)
    ensures forall n: Node :: n in cand <==> Reclaimable(lay, h, ncells, n)
    ensures Outside(h, cand, tokens) == Beyond(lay, h, ncells, tokens)
  {
    forall n: Node ensures n in cand <==> Reclaimable(lay, h, ncells, n) {
      CandidateIs(lay, h, ncells, cand, tokens, n);
    }
    forall n: Node ensures n in Outside(h, cand, tokens) <==> n in Beyond(lay, h, ncells, tokens) {
      CandidateIs(lay, h, ncells, cand, tokens, n);
      if n in cand {
        CandidateMortal(lay, h, ncells, cand, tokens, n);
      }
      if n in h.live {
        assert NodeOk(lay, h, n);
      }
    }
  }

  lemma CandidateIs(lay: Layout, h: Heap, ncells: nat, cand: set<Node>, tokens: multiset<Node>, n: Node)
    requires HeapInv(lay, h, {}, tokens) && Candidates(lay, h, ncells, cand)
    ensures n in cand <==> Reclaimable(lay, h, ncells, n)
    ensures n in cand && n >= ncells ==> OnChain(lay, h, ncells, n)
    ensures OnChain(lay, h, ncells, n) ==> IsEnv(h.rec, n)
  {
    if n in cand && n >= ncells {
      var p :| UpChain(lay, h, ncells, p) && p[|p| - 1] == n;
      ChainsAgree(lay, h, ncells, tokens, p);
    }
    if OnChain(lay, h, ncells, n) {
      var p :| ClosureChain(lay, h, ncells, p) && p[|p| - 1] == n;
      ChainsAgree(lay, h, ncells, tokens, p);
      CandidateChain(lay, h, ncells, cand, p);
      assert Up(h.rec[p[|p| - 2]]) == Some(p[|p| - 2 + 1]);
      assert NodeOk(lay, h, p[|p| - 2]);
    }
  }

  /** Cell 0 is a dict whose value is closure 1, which captured environment 2, which binds cell 0. */
  const RING: Heap := Heap(
    [Cell(Container, [], None, [1], None), Cell(Closure(false), [], Some(2), [], None), Env([0], [], None, None, true)],
    [[1], [2], [0]], [1, 1, 1], {0, 1, 2}, [], 3)

  const RING_LAYOUT: Layout := Layout({}, {}, 2, 3)

  lemma RingEdges(n: Node)
    ensures InEdges(RING.out, RING.live, n) == if n < 3 then 1 else 0
  {
    var out, live := RING.out, RING.live;
    assert |out| == 3;
    assert multiset(out[0]) == multiset{1} && multiset(out[1]) == multiset{2} && multiset(out[2]) == multiset{0};
    assert CountUpTo(out, live, 1, n) == multiset(out[0])[n];
    assert CountUpTo(out, live, 2, n) == CountUpTo(out, live, 1, n) + multiset(out[1])[n];
    assert CountUpTo(out, live, 3, n) == CountUpTo(out, live, 2, n) + multiset(out[2])[n];
  }

  lemma RingNode(n: Node)
    requires n < 3
    ensures NodeOk(RING_LAYOUT, RING, n)
  {
    var h := RING;
    assert Owned(h.rec[0]) == [1] && Owned(h.rec[1]) == [2] && Owned(h.rec[2]) == [0];
  }

  lemma RingOk()
    ensures HeapInv(RING_LAYOUT, RING, {}, multiset{})
  {
    hide NodeOk, InEdges;
    var h := RING;
    assert h.live - {} == h.live;
    forall n: Node ensures Counted(h.out, h.nref, h.live, {}, multiset{}, n) {
      RingEdges(n);
    }
    forall n: Node | n < |h.rec| ensures NodeOk(RING_LAYOUT, h, n) {
      RingNode(n);
    }
  }

  /** Nothing refers to the three but they themselves: both cells are garbage, and so is the environment. */
  lemma RingIsGarbage()
    ensures HeapInv(RING_LAYOUT, RING, {}, multiset{})
    ensures Garbage(RING_LAYOUT, RING, 2, multiset{}) == {0, 1} && |Garbage(RING_LAYOUT, RING, 2, multiset{})| == 2
    ensures Reclaimable(RING_LAYOUT, RING, 2, 2) && !Reachable(RING.out, Beyond(RING_LAYOUT, RING, 2, multiset{}), 2)
  {
    RingOk();
    assert ClosureChain(RING_LAYOUT, RING, 2, [1, 2]) && [1, 2][|[1, 2]| - 1] == 2;
    assert OnChain(RING_LAYOUT, RING, 2, 2);
    forall n: Node ensures n !in Beyond(RING_LAYOUT, RING, 2, multiset{}) {
    }
    assert forall n: Node :: !Reachable(RING.out, Beyond(RING_LAYOUT, RING, 2, multiset{}), n);
    assert Garbage(RING_LAYOUT, RING, 2, multiset{}) == {0, 1};
  }

  // ---- marking ----

  /** Every candidate that `m` refers to is marked. */
  ghost predicate Black(h: Heap, cand: set<Node>, marked: set<Node>, m: Node) {
    forall n | m < |h.out| && n in h.out[m] && n in cand :: n in marked
  }

  /** Marking in progress: `gray` are the marked candidates whose references are still to be
      followed; every marked candidate is reachable from a root. */
  ghost predicate MarkInv(h: Heap, cand: set<Node>, marked: set<Node>, gray: set<Node>) {
    && gray <= marked * cand
    && (forall m: Node {:trigger Black(h, cand, marked, m)} ::
        m in marked && m in cand && m !in gray ==> Black(h, cand, marked, m))
    && (forall m: Node {:trigger Reachable(h.out, Roots(h, cand), m)} ::
          m in marked && m in cand ==> Reachable(h.out, Roots(h, cand), m))
  }

  /** What a marked candidate refers to is reachable from a root. */
  lemma FollowedReachable(lay: Layout, h: Heap, tokens: multiset<Node>, ncells: nat, cand: set<Node>, p: Node)
    requires HeapInv(lay, h, {}, tokens) && Candidates(lay, h, ncells, cand)
    requires p < |h.rec| && Reachable(h.out, Roots(h, cand), p)
    ensures forall i | 0 <= i < |Kids(h.rec[p])| :: Reachable(h.out, Roots(h, cand), Kids(h.rec[p])[i])
    ensures Up(h.rec[p]).Some? ==> Reachable(h.out, Roots(h, cand), Up(h.rec[p]).value) && Up(h.rec[p]).value >= ncells
  {
    assert NodeOk(lay, h, p);
    forall i | 0 <= i < |Owned(h.rec[p])|
      ensures Reachable(h.out, Roots(h, cand), Owned(h.rec[p])[i])
    {
      ReachableStep(h.out, Roots(h, cand), p, Owned(h.rec[p])[i]);
    }
    forall i | 0 <= i < |Kids(h.rec[p])|
      ensures Reachable(h.out, Roots(h, cand), Kids(h.rec[p])[i])
    {
      assert Owned(h.rec[p])[i] == Kids(h.rec[p])[i];
    }
    assert Up(h.rec[p]).Some? ==> Owned(h.rec[p])[|Kids(h.rec[p])|] == Up(h.rec[p]).value;
  }

  /** A node is finished once its marked cell and environment references are. */
  lemma FollowedBlack(lay: Layout, h: Heap, tokens: multiset<Node>, ncells: nat, cand: set<Node>, marked: set<Node>,
      p: Node)
    requires HeapInv(lay, h, {}, tokens) && Candidates(lay, h, ncells, cand) && p < |h.rec|
    requires forall i | 0 <= i < |Kids(h.rec[p])| && Kids(h.rec[p])[i] < ncells && Kids(h.rec[p])[i] in cand ::
               Kids(h.rec[p])[i] in marked
    requires Up(h.rec[p]).Some? && Up(h.rec[p]).value in cand ==> Up(h.rec[p]).value in marked
    ensures Black(h, cand, marked, p)
  {
    assert NodeOk(lay, h, p);
    TypedKids(h.rec, h.rec[p]);
    forall n | n in h.out[p] && n in cand
      ensures n in marked
    {
      if n in Kids(h.rec[p]) {
        var i :| 0 <= i < |Kids(h.rec[p])| && Kids(h.rec[p])[i] == n;
      }
    }
  }

  lemma ReachableStartIf(h: Heap, cand: set<Node>, n: Node)
    ensures IsRoot(h, cand, n) ==> Reachable(h.out, Roots(h, cand), n)
  {
    if IsRoot(h, cand, n) {
      ReachableStart(h.out, Roots(h, cand), n);
    }
  }

  /** Marking one more node. */
  lemma MarkNode(h: Heap, cand: set<Node>, marked: set<Node>, gray: set<Node>, n: Node)
    requires MarkInv(h, cand, marked, gray)
    requires n in cand ==> Reachable(h.out, Roots(h, cand), n)
    ensures MarkInv(h, cand, marked + {n}, if n in cand then gray + {n} else gray)
  {
    var gray' := if n in cand then gray + {n} else gray;
    forall m: Node | m in marked + {n} && m in cand && m !in gray'
      ensures Black(h, cand, marked + {n}, m)
    {
      assert Black(h, cand, marked, m);
    }
  }

  /** A candidate all of whose references have been followed. */
  lemma Blacken(h: Heap, cand: set<Node>, marked: set<Node>, gray: set<Node>, n: Node)
    requires MarkInv(h, cand, marked, gray) && Black(h, cand, marked, n)
    ensures MarkInv(h, cand, marked, gray - {n})
  {
    forall m: Node | m in marked && m in cand && m !in gray - {n}
      ensures Black(h, cand, marked, m)
    {
      assert m in gray || Black(h, cand, marked, m);
    }
  }

  /** When nothing is gray and the roots are marked, marking is complete. */
  lemma MarkDone(h: Heap, cand: set<Node>, marked: set<Node>)
    requires MarkInv(h, cand, marked, {})
    requires forall n: Node {:trigger IsRoot(h, cand, n)} :: IsRoot(h, cand, n) ==> n in marked
    ensures MarkedClosed(h, cand, marked)
  {
    forall m: Node, n: Node | m < |h.out| && m in marked && m in cand && n in h.out[m] && n in cand
      ensures n in marked
    {
      assert Black(h, cand, marked, m);
    }
  }

  // ---- a stack on which each node is pushed at most once never overflows ----

  lemma Popped(s: seq<Node>, rest: seq<Node>, last: Node)
    requires NoRepeats(s) && s == rest + [last]
    ensures NoRepeats(rest) && last in s
    ensures forall n {:trigger n in rest} :: n in rest <==> n in s && n != last
  {
    forall n | n in rest
      ensures n in s && n != last
    {
      var i :| 0 <= i < |rest| && rest[i] == n;
      assert s[i] == n && s[|s| - 1] == last;
    }
    forall i, j | 0 <= i < j < |rest|
      ensures rest[i] != rest[j]
    {
      assert s[i] != s[j];
    }
  }

  lemma {:induction false} NoRepeatsSize(s: seq<Node>, all: set<Node>)
    requires NoRepeats(s) && forall n | n in s :: n in all
    ensures |s| <= |all|
  {
    if s != [] {
      var k := |s| - 1;
      assert s == s[..k] + [s[k]];
      assert |all - {s[k]}| == |all| - 1;
      NoRepeatsSize(s[..k], all - {s[k]});
    }
  }

  lemma {:induction false} SetBelow(k: nat) returns (all: set<Node>)
    ensures |all| == k && forall n: Node :: n in all <==> n < k
  {
    if k == 0 {
      all := {};
    } else {
      all := SetBelow(k - 1);
      all := all + {k - 1};
    }
  }

  lemma RoomBelow(s: seq<Node>, k: nat, n: Node)
    requires NoRepeats(s) && n !in s && n < k && forall m | m in s :: m < k
    ensures |s| < k
  {
    var all := SetBelow(k);
    NoRepeatsSize(s + [n], all);
  }

  lemma {:induction false} SetOfSeq(t: seq<Node>) returns (all: set<Node>)
    ensures |all| <= |t| && forall n :: n in all <==> n in t
  {
    if t == [] {
      all := {};
    } else {
      all := SetOfSeq(t[1..]);
      assert t == [t[0]] + t[1..];
      all := all + {t[0]};
    }
  }

  lemma RoomAmong(s: seq<Node>, t: seq<Node>, n: Node)
    requires NoRepeats(s) && n !in s && n in t && forall m | m in s :: m in t
    ensures |s| < |t|
  {
    var all := SetOfSeq(t);
    NoRepeatsSize(s + [n], all);
  }
}
