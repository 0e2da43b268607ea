/** What the sweep of the collector keeps true while it takes the dead nodes apart. */
module SweepTheory {
  import opened Wrappers
  import opened RefGraph
  import opened HeapModel
  import opened CycleTheory

  ghost function KidAdj(rec: seq<Rec>): (out: Adjacency)
    ensures |out| == |rec| && forall i {:trigger out[i]} | 0 <= i < |rec| :: out[i] == Kids(rec[i])
  {
    seq(|rec|, i requires 0 <= i < |rec| => Kids(rec[i]))
  }

  ghost function UpAdj(rec: seq<Rec>): (out: Adjacency)
    ensures |out| == |rec| && forall i {:trigger out[i]} | 0 <= i < |rec| :: out[i] == UpRefs(rec[i])
  {
    seq(|rec|, i requires 0 <= i < |rec| => UpRefs(rec[i]))
  }

  ghost function AtLeast(s: set<Node>, k: nat): set<Node> {
    set n | n in s && n >= k
  }

  ghost function Below(s: set<Node>, k: nat): set<Node> {
    set n | n in s && n < k
  }

  /** How many references to survivor `n` are still to be dropped: the cell references of the dead
      nodes in `kidOwners`, the environment references of those in `upOwners`, and `extra`. */
  ghost function Owing(h0: Heap, dead: set<Node>, kidOwners: set<Node>, upOwners: set<Node>, extra: seq<Node>,
      n: Node): nat {
    if n in dead then 0
    else InEdges(KidAdj(h0.rec), kidOwners, n) + InEdges(UpAdj(h0.rec), upOwners, n) + multiset(extra)[n]
  }

  ghost predicate Pending(h0: Heap, dead: set<Node>, kidOwners: set<Node>, upOwners: set<Node>, extra: seq<Node>,
                          pending: multiset<Node>) {
    forall n: Node {:trigger pending[n]} {:trigger Owing(h0, dead, kidOwners, upOwners, extra, n)} ::
      pending[n] == Owing(h0, dead, kidOwners, upOwners, extra, n)
  }

  /** State of node `n` during the sweep that started in `h0`: survivors only ever see releases;
      the dead nodes of `torn` are untouched but for their own fields, those in `intact` not even
      there; the others are gone. */
  ghost predicate SweptAt(dead: set<Node>, torn: set<Node>, intact: set<Node>, h0: Heap, h: Heap, n: Node)
    requires n < |h0.rec| == |h0.nref| == |h.rec| == |h.nref|
  {
    && (n !in dead ==> Released({}, h0, h, n))
    && (h.rec[n].Cell? <==> h0.rec[n].Cell?)
    && (n in torn ==> n in h.live && h.nref[n] == h0.nref[n])
    && (n in dead && n !in torn ==> n !in h.live && h.nref[n] <= h0.nref[n])
    && (n in intact ==> h.rec[n] == h0.rec[n])
  }

  ghost predicate Swept(dead: set<Node>, torn: set<Node>, intact: set<Node>, h0: Heap, h: Heap) {
    && |h0.rec| == |h0.nref| == |h.rec| == |h.nref|
    && h.live <= h0.live && intact <= torn <= dead
    && (forall n | n in dead :: n < |h0.rec| && n in h0.live && h0.nref[n] >= 0)
    && (forall n: Node {:trigger SweptAt(dead, torn, intact, h0, h, n)} ::
        n < |h0.rec| ==> SweptAt(dead, torn, intact, h0, h, n))
  }

  lemma SweptTrans(dead: set<Node>, torn: set<Node>, intact: set<Node>, h0: Heap, h: Heap, h': Heap)
    requires Swept(dead, torn, intact, h0, h) && OnlyReleased(torn, h, h')
    ensures Swept(dead, torn, intact, h0, h')
  {
    forall n: Node | n < |h0.rec|
      ensures SweptAt(dead, torn, intact, h0, h', n)
    {
      assert SweptAt(dead, torn, intact, h0, h, n);
      assert Released(torn, h, h', n);
    }
  }

  lemma SweptShrink(dead: set<Node>, torn: set<Node>, intact: set<Node>, intact': set<Node>, h0: Heap, h: Heap)
    requires Swept(dead, torn, intact, h0, h) && intact' <= intact
    ensures Swept(dead, torn, intact', h0, h)
  {
    forall n: Node | n < |h0.rec|
      ensures SweptAt(dead, torn, intact', h0, h, n)
    {
      assert SweptAt(dead, torn, intact, h0, h, n);
    }
  }

  lemma SweptForget(dead: set<Node>, torn: set<Node>, intact: set<Node>, h0: Heap, h: Heap, c: Node, h': Heap)
    requires Swept(dead, torn, intact, h0, h) && c in dead && c !in intact && c < |h.rec| && h.rec[c].Cell?
    requires |h'.out| == |h.out| && h' == h.(rec := h.rec[c := h.rec[c].(capture := None)], out := h'.out)
    ensures Swept(dead, torn, intact, h0, h')
  {
    forall n: Node | n < |h0.rec|
      ensures SweptAt(dead, torn, intact, h0, h', n)
    {
      assert SweptAt(dead, torn, intact, h0, h, n);
    }
  }

  /** Node `m` is freed: it leaves `torn`. */
  lemma SweptFreed(dead: set<Node>, torn: set<Node>, intact: set<Node>, h0: Heap, h: Heap, m: Node, h': Heap)
    requires Swept(dead, torn, intact, h0, h) && m in torn && m !in intact && m < |h.rec| && h.nref[m] >= 0
    requires |h'.rec| == |h.rec| && h'.nref == h.nref[m := 0] && h'.live == h.live - {m}
    requires h'.rec == h.rec[m := Emptied(h.rec[m])]
    ensures Swept(dead, torn - {m}, intact, h0, h')
  {
    forall n: Node | n < |h0.rec|
      ensures SweptAt(dead, torn - {m}, intact, h0, h', n)
    {
      assert SweptAt(dead, torn, intact, h0, h, n);
    }
  }

  /** When every dead node has been freed, the sweep as a whole was a release. */
  lemma SweptDone(dead: set<Node>, h0: Heap, h: Heap)
    requires Swept(dead, {}, {}, h0, h)
    ensures OnlyReleased({}, h0, h) && dead !! h.live
  {
    forall n: Node | n < |h0.rec|
      ensures Released({}, h0, h, n) && !(n in dead && n in h.live)
    {
      assert SweptAt(dead, {}, {}, h0, h, n);
    }
  }

  // ---- references still to be dropped ----

  lemma TakeKids(h0: Heap, dead: set<Node>, kidOwners: set<Node>, upOwners: set<Node>, pending: multiset<Node>, m: Node)
    requires Pending(h0, dead, kidOwners, upOwners, [], pending) && m in kidOwners && m < |h0.rec|
    ensures Pending(h0, dead, kidOwners - {m}, upOwners, Kids(h0.rec[m]), pending)
  {
    forall n: Node
      ensures pending[n] == Owing(h0, dead, kidOwners - {m}, upOwners, Kids(h0.rec[m]), n)
    {
      assert pending[n] == Owing(h0, dead, kidOwners, upOwners, [], n);
      InEdgesRemove(KidAdj(h0.rec), kidOwners, m, n);
    }
  }

  lemma TakeUp(h0: Heap, dead: set<Node>, kidOwners: set<Node>, upOwners: set<Node>, pending: multiset<Node>, m: Node)
    requires Pending(h0, dead, kidOwners, upOwners, [], pending) && m in upOwners && m < |h0.rec|
    ensures Pending(h0, dead, kidOwners, upOwners - {m}, UpRefs(h0.rec[m]), pending)
  {
    forall n: Node
      ensures pending[n] == Owing(h0, dead, kidOwners, upOwners - {m}, UpRefs(h0.rec[m]), n)
    {
      assert pending[n] == Owing(h0, dead, kidOwners, upOwners, [], n);
      InEdgesRemove(UpAdj(h0.rec), upOwners, m, n);
    }
  }

  /** A reference to a dead node dissolves; one to a survivor is really dropped. */
  lemma DropExtra(h0: Heap, dead: set<Node>, kidOwners: set<Node>, upOwners: set<Node>, extra: seq<Node>,
                  pending: multiset<Node>, x: Node, rest: seq<Node>)
    requires Pending(h0, dead, kidOwners, upOwners, extra, pending) && extra == [x] + rest
    ensures x in dead ==> Pending(h0, dead, kidOwners, upOwners, rest, pending)
    ensures x !in dead ==> x in pending && Pending(h0, dead, kidOwners, upOwners, rest, pending - multiset{x})
  {
    assert pending[x] == Owing(h0, dead, kidOwners, upOwners, extra, x);
    forall n: Node
      ensures n in dead || n != x ==> pending[n] == Owing(h0, dead, kidOwners, upOwners, rest, n)
      ensures n == x && x !in dead ==> pending[n] - 1 == Owing(h0, dead, kidOwners, upOwners, rest, n)
    {
      assert pending[n] == Owing(h0, dead, kidOwners, upOwners, extra, n);
      assert multiset(extra)[n] == multiset([x])[n] + multiset(rest)[n];
    }
  }

  lemma PendingNone(h0: Heap, dead: set<Node>, pending: multiset<Node>)
    requires Pending(h0, dead, {}, {}, [], pending)
    ensures pending == multiset{}
  {
    forall n: Node
      ensures pending[n] == 0
    {
      assert pending[n] == Owing(h0, dead, {}, {}, [], n);
      InEdgesPositive(KidAdj(h0.rec), {}, n);
      InEdgesPositive(UpAdj(h0.rec), {}, n);
    }
  }

  // ---- the start of the sweep ----

  ghost function Surviving(s: seq<Node>, dead: set<Node>): multiset<Node> {
    if s == [] then multiset{}
    else Surviving(s[1..], dead) + (if s[0] in dead then multiset{} else multiset{s[0]})
  }

  lemma {:induction false} SurvivingCount(s: seq<Node>, dead: set<Node>, n: Node)
    ensures Surviving(s, dead)[n] == if n in dead then 0 else multiset(s)[n]
  {
    if s != [] {
      SurvivingCount(s[1..], dead, n);
      assert s == [s[0]] + s[1..];
    }
  }

  /** The references of the first `i` dead nodes to survivors. */
  ghost function SurvivingEdges(out: Adjacency, dead: set<Node>, i: nat): multiset<Node>
    requires i <= |out|
  {
    if i == 0 then multiset{}
    else SurvivingEdges(out, dead, i - 1) + (if i - 1 in dead then Surviving(out[i - 1], dead) else multiset{})
  }

  lemma {:induction false} SurvivingEdgesCount(out: Adjacency, dead: set<Node>, i: nat, n: Node)
    requires i <= |out|
    ensures SurvivingEdges(out, dead, i)[n] == if n in dead then 0 else CountUpTo(out, dead, i, n)
  {
    if i != 0 {
      SurvivingEdgesCount(out, dead, i - 1, n);
      SurvivingCount(out[i - 1], dead, n);
    }
  }

  /** The dead nodes are taken out of the graph at once: what they owe survivors becomes tokens. */
  lemma SweepStart(lay: Layout, h: Heap, ncells: nat, cand: set<Node>, marked: set<Node>, tokens: multiset<Node>)
    returns (pending: multiset<Node>)
    requires HeapInv(lay, h, {}, tokens) && Candidates(lay, h, ncells, cand) && MarkedClosed(h, cand, marked)
    ensures HeapInv(lay, h, cand - marked, tokens + pending)
    ensures Pending(h, cand - marked, cand - marked, cand - marked, [], pending)
    ensures Swept(cand - marked, cand - marked, cand - marked, h, h)
  {
    pending := PendingStart(lay, h, tokens, cand - marked);
    SweptStart(lay, h, ncells, cand, marked, tokens);
    ConsistentStart(lay, h, ncells, cand, marked, tokens, pending);
  }

  lemma PendingStart(lay: Layout, h: Heap, tokens: multiset<Node>, dead: set<Node>) returns (pending: multiset<Node>)
    requires HeapInv(lay, h, {}, tokens)
    ensures Pending(h, dead, dead, dead, [], pending)
    ensures forall n: Node {:trigger pending[n]} :: pending[n] == if n in dead then 0 else InEdges(h.out, dead, n)
  {
    pending := SurvivingEdges(h.out, dead, |h.out|);
    forall n: Node
      ensures pending[n] == if n in dead then 0 else InEdges(h.out, dead, n)
      ensures pending[n] == Owing(h, dead, dead, dead, [], n)
    {
      SurvivingEdgesCount(h.out, dead, |h.out|, n);
      OwnedSum(lay, h, tokens, dead, n);
    }
  }

  lemma SweptStart(lay: Layout, h: Heap, ncells: nat, cand: set<Node>, marked: set<Node>, tokens: multiset<Node>)
    requires HeapInv(lay, h, {}, tokens) && Candidates(lay, h, ncells, cand)
    ensures Swept(cand - marked, cand - marked, cand - marked, h, h)
    ensures forall n | n in cand - marked :: n in h.live && n !in lay.immortal
  {
    forall n | n in cand - marked
      ensures n in h.live && n !in lay.immortal && n < |h.rec| && h.nref[n] >= 0
    {
      CandidateMortal(lay, h, ncells, cand, tokens, n);
    }
    forall n: Node | n < |h.rec|
      ensures SweptAt(cand - marked, cand - marked, cand - marked, h, h, n)
    {
    }
  }

  lemma ConsistentStart(lay: Layout, h: Heap, ncells: nat, cand: set<Node>, marked: set<Node>, tokens: multiset<Node>,
                        pending: multiset<Node>)
    requires HeapInv(lay, h, {}, tokens) && Candidates(lay, h, ncells, cand) && MarkedClosed(h, cand, marked)
    requires forall n: Node {:trigger pending[n]} :: pending[n] == if n in cand - marked then 0
        else InEdges(h.out, cand - marked, n)
    requires forall n | n in cand - marked :: n in h.live && n !in lay.immortal
    ensures HeapInv(lay, h, cand - marked, tokens + pending)
  {
    forall n: Node | n !in lay.immortal
      ensures Counted(h.out, h.nref, h.live, cand - marked, tokens + pending, n)
    {
      StillCounted(lay, h, ncells, cand, marked, tokens, pending, n);
    }
  }

  lemma OwnedSum(lay: Layout, h: Heap, tokens: multiset<Node>, from: set<Node>, n: Node)
    requires HeapInv(lay, h, {}, tokens)
    ensures InEdges(h.out, from, n) == InEdges(KidAdj(h.rec), from, n) + InEdges(UpAdj(h.rec), from, n)
  {
    forall j | 0 <= j < |h.out|
      ensures h.out[j] == KidAdj(h.rec)[j] + UpAdj(h.rec)[j]
    {
      assert NodeOk(lay, h, j);
    }
    CountUpToSum(h.out, KidAdj(h.rec), UpAdj(h.rec), from, |h.out|, n);
  }

  lemma StillCounted(lay: Layout, h: Heap, ncells: nat, cand: set<Node>, marked: set<Node>, tokens: multiset<Node>,
                     pending: multiset<Node>, n: Node)
    requires HeapInv(lay, h, {}, tokens) && Candidates(lay, h, ncells, cand) && MarkedClosed(h, cand, marked)
    requires pending[n] == if n in cand - marked then 0 else InEdges(h.out, cand - marked, n)
    requires n !in lay.immortal && cand - marked <= h.live
    ensures Counted(h.out, h.nref, h.live, cand - marked, tokens + pending, n)
  {
    var dead := cand - marked;
    assert Counted(h.out, h.nref, h.live, {}, tokens, n);
    assert h.live - {} == h.live && dead + (h.live - dead) == h.live;
    InEdgesUnion(h.out, dead, h.live - dead, n);
    if n in dead {
      DeadIsolated(lay, h, ncells, cand, marked, tokens, n);
      InEdgesPositive(h.out, h.live - dead, n);
    }
  }
}
