/**
 The node records of the heap.

 Cells (`exp_t`) and environments (`env_t`) share one identifier space.  Every node owns
 references to cells (`Kids`) and at most one reference to an environment (`Up`: a closure's
 captured environment, or an environment's parent).
 */
module HeapModel {
  import opened Wrappers
  import opened RefGraph

  /** `Container`: pairs, trees, dicts, sets, deques and generic vectors; `Closure`: lambdas and
      macros; `Opaque`: every kind whose owned references the collector does not walk. */
  datatype Kind = Container | Closure(shared: bool) | Opaque

  /** `pool`: what a compiled closure owns through its bytecode; `payload`: the content slot,
      dict values, deque values or vector slots; `next`: the chain successor.
      `slots`/`over`: an environment's inline and overflow bindings. */
  datatype Rec =
    | Cell(kind: Kind, pool: seq<Node>, capture: Option<Node>, payload: seq<Node>, next: Option<Node>)
    | Env(slots: seq<Node>, over: seq<Node>, caller: Option<Node>, root: Option<Node>, hasClosure: bool)

  function Opt(o: Option<Node>): seq<Node> {
    match o case None => [] case Some(n) => [n]
  }

  function Kids(r: Rec): seq<Node> {
    match r
    case Cell(_, pool, _, payload, next) => pool + payload + Opt(next)
    case Env(slots, over, caller, _, _) => slots + over + Opt(caller)
  }

  function Up(r: Rec): Option<Node> {
    match r
    case Cell(_, _, capture, _, _) => capture
    case Env(_, _, _, root, _) => root
  }

  /** What is left of a node whose payload has been released. */
  function Emptied(r: Rec): Rec {
    match r
    case Cell(kind, _, _, _, _) => Cell(kind, [], None, [], None)
    case Env(_, _, _, _, _) => Env([], [], None, None, false)
  }

  function UpRefs(r: Rec): seq<Node> {
    Opt(Up(r))
  }

  function Owned(r: Rec): seq<Node> {
    Kids(r) + UpRefs(r)
  }

  ghost predicate AreCells(rec: seq<Rec>, s: seq<Node>) {
    forall i | 0 <= i < |s| :: s[i] < |rec| && rec[s[i]].Cell?
  }

  ghost predicate IsCell(rec: seq<Rec>, n: Node) {
    n < |rec| && rec[n].Cell?
  }

  ghost predicate MaybeCell(rec: seq<Rec>, o: Option<Node>) {
    o.Some? ==> IsCell(rec, o.value)
  }

  ghost predicate TypedNode(rec: seq<Rec>, r: Rec) {
    && (match r
        case Cell(_, pool, _, payload, next) => AreCells(rec, pool) && AreCells(rec, payload) && MaybeCell(rec, next)
        case Env(slots, over, caller, _, _) => AreCells(rec, slots) && AreCells(rec, over) && MaybeCell(rec, caller))
    && (Up(r).Some? ==> IsEnv(rec, Up(r).value))
  }

  lemma TypedEmptied(rec: seq<Rec>, r: Rec)
    ensures Owned(Emptied(r)) == [] && TypedNode(rec, Emptied(r)) && Emptied(Emptied(r)) == Emptied(r)
  {
  }

  lemma TypedKids(rec: seq<Rec>, r: Rec)
    requires TypedNode(rec, r)
    ensures AreCells(rec, Kids(r))
  {
  }

  lemma KidIsCell(rec: seq<Rec>, r: Rec, n: Node)
    requires TypedNode(rec, r) && n in Kids(r)
    ensures IsCell(rec, n)
  {
    TypedKids(rec, r);
    var i :| 0 <= i < |Kids(r)| && Kids(r)[i] == n;
  }

  lemma OwnedCount(r: Rec, n: Node)
    ensures multiset(Owned(r))[n] == multiset(Kids(r))[n] + multiset(Opt(Up(r)))[n]
  {
  }

  /** Typing survives as long as no node changes its kind. */
  lemma TypedStable(rec: seq<Rec>, rec': seq<Rec>, r: Rec)
    requires |rec| <= |rec'| && forall m {:trigger rec'[m]} | 0 <= m < |rec| :: rec'[m].Cell? == rec[m].Cell?
    requires TypedNode(rec, r)
    ensures TypedNode(rec', r)
  {
  }

  ghost predicate IsEnv(rec: seq<Rec>, n: Node) {
    n < |rec| && rec[n].Env?
  }

  /** The parts of the heap that stay put while it runs: the environment arena is [lo, hi),
      `tail` the cells never handed out so far. */
  datatype Layout = Layout(immortal: set<Node>, tail: set<Node>, lo: nat, hi: nat)

  /** One state of the heap: records, the references they own, counts, the nodes that are alive,
      the cell free list and the bump pointer of the environment arena. */
  datatype Heap = Heap(rec: seq<Rec>, out: Adjacency, nref: seq<int>, live: set<Node>,
                       freelist: seq<Node>, sp: nat)

  /** Node `n` is well formed: `out` lists what it owns, cell references lead to cells and the
      environment reference to an environment.  A dead node owns nothing and, if a cell, has
      count 0 and sits on the free list; an arena slot at or above the bump pointer is dead. */
  ghost predicate NodeOk(lay: Layout, h: Heap, n: Node)
    requires n < |h.rec| == |h.out| == |h.nref|
  {
    && h.out[n] == Owned(h.rec[n])
    && TypedNode(h.rec, h.rec[n])
    && LifeOk(lay, h.rec[n], h.nref[n], n in h.live, n in h.freelist, h.sp, n)
  }

  ghost predicate LifeOk(lay: Layout, r: Rec, count: int, alive: bool, listed: bool, sp: nat, n: Node) {
    && (!alive ==> r == Emptied(r) && (r.Cell? ==> count == 0))
    && (listed <==> r.Cell? && !alive && n !in lay.tail)
    && (n in lay.tail ==> !alive && r.Cell?)
    && (r.Cell? && r.capture.Some? ==> r.kind.Closure?)
    && (n in lay.immortal ==> r.Cell? && !r.kind.Closure?)
    && (lay.lo <= n < lay.hi ==> r.Env? && (sp <= n ==> !alive))
  }

  ghost predicate NoRepeats(s: seq<Node>) {
    forall i, j | 0 <= i < j < |s| :: s[i] != s[j]
  }

  /** Every node is well formed and the free list holds no cell twice. */
  ghost predicate Shaped(lay: Layout, h: Heap) {
    && |h.rec| == |h.out| == |h.nref|
    && lay.lo <= h.sp <= lay.hi <= |h.rec|
    && (forall n | n in lay.tail :: n < |h.rec|)
    && NoRepeats(h.freelist)
    && (forall n | n in h.freelist :: n < |h.rec|)
    && (forall n: Node {:trigger NodeOk(lay, h, n)} :: n < |h.rec| ==> NodeOk(lay, h, n))
  }

  /** The heap invariant, with `tokens` outstanding and the nodes of `torn` being torn down. */
  ghost predicate HeapInv(lay: Layout, h: Heap, torn: set<Node>, tokens: multiset<Node>) {
    && Shaped(lay, h)
    && Consistent(h.out, h.nref, h.live, lay.immortal, torn, tokens)
  }

  // ---- closures bound in the environment they captured ----

  function Bindings(r: Rec): seq<Node>
    requires r.Env?
  {
    r.slots + r.over
  }

  /** `is_self_closure`: a closure that captured `v` and is not shared between threads. */
  predicate IsSelfClosure(rec: seq<Rec>, c: Node, v: Node) {
    c < |rec| && rec[c].Cell? && rec[c].kind.Closure? && !rec[c].kind.shared && rec[c].capture == Some(v)
  }

  /** How many of the first `i` entries of `s` are such closures. */
  ghost function SelfRefs(rec: seq<Rec>, s: seq<Node>, v: Node, i: nat): nat
    requires i <= |s|
  {
    if i == 0 then 0 else SelfRefs(rec, s, v, i - 1) + (if IsSelfClosure(rec, s[i - 1], v) then 1 else 0)
  }

  /** Each such closure among the first `i` entries of `s` has one reference only. */
  ghost predicate SoleOwner(rec: seq<Rec>, nref: seq<int>, s: seq<Node>, v: Node, i: nat)
    requires i <= |s|
  {
    forall j | 0 <= j < i && IsSelfClosure(rec, s[j], v) :: s[j] < |nref| && nref[s[j]] == 1
  }

  /** The test of `env_break_self_cycle`. */
  ghost predicate Breakable(rec: seq<Rec>, nref: seq<int>, v: Node, residual: int)
    requires IsEnv(rec, v)
  {
    var s := Bindings(rec[v]);
    SoleOwner(rec, nref, s, v, |s|) && residual > 0 && SelfRefs(rec, s, v, |s|) == residual
  }

  /** What a release may do to node `n`: it may die, its count may fall, and if it stays alive it
      keeps everything it owns.  A node that is free, or being torn down, is not touched. */
  ghost predicate Released(torn: set<Node>, h: Heap, h': Heap, n: Node)
    requires n < |h.rec| == |h.nref| == |h'.rec| == |h'.nref|
  {
    && (n in h'.live ==> n in h.live)
    && (n in h'.live || n !in h.live ==> h'.rec[n] == h.rec[n])
    && (h'.rec[n].Cell? <==> h.rec[n].Cell?)
    && h'.nref[n] <= h.nref[n]
    && (n in torn ==> n in h'.live && h'.nref[n] == h.nref[n])
  }

  ghost predicate OnlyReleased(torn: set<Node>, h: Heap, h': Heap) {
    && |h.rec| == |h.nref| == |h'.rec| == |h'.nref|
    && h'.live <= h.live
    && (forall n: Node {:trigger Released(torn, h, h', n)} :: n < |h.rec| ==> Released(torn, h, h', n))
  }

  lemma OnlyReleasedTrans(torn: set<Node>, h: Heap, h1: Heap, h2: Heap)
    requires OnlyReleased(torn, h, h1) && OnlyReleased(torn, h1, h2)
    ensures OnlyReleased(torn, h, h2)
  {
    forall n: Node | n < |h.rec|
      ensures Released(torn, h, h2, n)
    {
      assert Released(torn, h, h1, n);
      assert Released(torn, h1, h2, n);
    }
  }

  lemma OnlyReleasedShrink(torn: set<Node>, torn1: set<Node>, h: Heap, h': Heap)
    requires torn <= torn1 && OnlyReleased(torn1, h, h')
    ensures OnlyReleased(torn, h, h')
  {
    forall n: Node | n < |h.rec|
      ensures Released(torn, h, h', n)
    {
      assert Released(torn1, h, h', n);
    }
  }

  /** Freeing one of the nodes being torn down is a release like any other. */
  lemma OnlyReleasedFreed(torn: set<Node>, h0: Heap, h: Heap, e: Node, h': Heap)
    requires OnlyReleased(torn + {e}, h0, h) && e !in torn && e < |h.rec|
    requires |h'.rec| == |h.rec| && |h'.nref| == |h.nref| && h'.live == h.live - {e}
    requires h'.rec == h.rec[e := Emptied(h.rec[e])] && h'.nref == h.nref[e := h'.nref[e]] && h'.nref[e] <= h.nref[e]
    ensures OnlyReleased(torn, h0, h')
  {
    forall n: Node | n < |h0.rec|
      ensures Released(torn, h0, h', n)
    {
      assert Released(torn + {e}, h0, h, n);
    }
  }

  lemma AreCellsReleased(torn: set<Node>, h: Heap, h': Heap, s: seq<Node>)
    requires OnlyReleased(torn, h, h')
    requires AreCells(h.rec, s)
    ensures AreCells(h'.rec, s)
  {
    forall i | 0 <= i < |s|
      ensures s[i] < |h'.rec| && h'.rec[s[i]].Cell?
    {
      assert Released(torn, h, h', s[i]);
    }
  }

  /** What a cell owns, in the order in which it is released. */
  lemma OwnedByCell(r: Rec, tokens: multiset<Node>)
    requires r.Cell?
    ensures tokens + multiset(Owned(r))
         == tokens + multiset(Opt(r.next)) + multiset(r.payload) + multiset(Opt(r.capture)) + multiset(r.pool)
  {
    assert multiset(Kids(r)) == multiset(r.pool) + multiset(r.payload) + multiset(Opt(r.next));
  }

  /** What an environment owns, in the order in which it is released. */
  lemma OwnedByEnv(rec: seq<Rec>, r: Rec, tokens: multiset<Node>)
    requires r.Env? && TypedNode(rec, r)
    ensures AreCells(rec, Bindings(r)) && AreCells(rec, Opt(r.caller))
    ensures tokens + multiset(Owned(r))
         == tokens + multiset(Opt(r.root)) + multiset(Opt(r.caller)) + multiset(Bindings(r))
  {
    assert multiset(Kids(r)) == multiset(Bindings(r)) + multiset(Opt(r.caller));
  }

  // ---- steps of a release ----

  lemma TokenOk(lay: Layout, h: Heap, torn: set<Node>, tokens: multiset<Node>, e: Node)
    requires HeapInv(lay, h, torn, tokens) && e in tokens
    ensures e in h.live && e !in torn && e < |h.nref| && h.nref[e] > 0
    ensures e !in lay.immortal ==> h.nref[e] >= tokens[e]
  {
    TokenTarget(h.out, h.nref, h.live, lay.immortal, torn, tokens, e);
  }

  lemma StepNone(lay: Layout, h: Heap, torn: set<Node>, tokens: multiset<Node>)
    requires HeapInv(lay, h, torn, tokens)
    ensures OnlyReleased(torn, h, h)
  {
    forall n: Node | n < |h.rec|
      ensures Released(torn, h, h, n)
    {
      assert NodeOk(lay, h, n);
    }
  }

  lemma StepImmortal(lay: Layout, h: Heap, torn: set<Node>, tokens: multiset<Node>, e: Node)
    requires HeapInv(lay, h, torn, tokens + multiset{e}) && e in lay.immortal
    ensures HeapInv(lay, h, torn, tokens) && OnlyReleased(torn, h, h)
  {
    assert tokens + multiset{e} - multiset{e} == tokens;
    DropImmortal(h.out, h.nref, h.live, lay.immortal, torn, tokens + multiset{e}, e);
    forall n: Node | n < |h.rec|
      ensures Released(torn, h, h, n)
    {
      assert NodeOk(lay, h, n);
    }
  }

  lemma StepDecrement(lay: Layout, h: Heap, torn: set<Node>, tokens: multiset<Node>, e: Node, h': Heap)
    requires HeapInv(lay, h, torn, tokens + multiset{e}) && e !in lay.immortal && e < |h.nref| && h.nref[e] > 1
    requires h' == h.(nref := h.nref[e := h.nref[e] - 1])
    ensures HeapInv(lay, h', torn, tokens) && OnlyReleased(torn, h, h')
  {
    assert tokens + multiset{e} - multiset{e} == tokens;
    TokenOk(lay, h, torn, tokens + multiset{e}, e);
    DropShared(h.out, h.nref, h.live, lay.immortal, torn, tokens + multiset{e}, e);
    forall n: Node | n < |h.rec|
      ensures Released(torn, h, h', n) && NodeOk(lay, h', n)
    {
      assert NodeOk(lay, h, n);
    }
  }

  /** Every reference to `e` is a token: `e` starts to be torn down. */
  lemma StepBegin(lay: Layout, h: Heap, torn: set<Node>, tokens: multiset<Node>, e: Node, h': Heap)
    requires HeapInv(lay, h, torn, tokens) && e !in lay.immortal && e < |h.nref| && 0 < h.nref[e] == tokens[e]
    requires |h'.nref| == |h.nref| && h' == h.(nref := h.nref[e := h'.nref[e]]) && h'.nref[e] <= h.nref[e]
    ensures e in h.live && e !in torn
    ensures HeapInv(lay, h', torn + {e}, tokens[e := 0] + multiset(Owned(h.rec[e]))) && OnlyReleased(torn, h, h')
  {
    assert NodeOk(lay, h, e);
    BeginTeardown(h.out, h.nref, h'.nref, h.live, lay.immortal, torn, tokens, e);
    forall n: Node | n < |h.rec|
      ensures Released(torn, h, h', n) && NodeOk(lay, h', n)
    {
      assert NodeOk(lay, h, n);
    }
  }

  /** The end of a cell's teardown: emptied, dead, first on the free list. */
  lemma StepFinishCell(lay: Layout, h: Heap, torn: set<Node>, tokens: multiset<Node>, e: Node, h': Heap)
    requires HeapInv(lay, h, torn, tokens) && e in torn && e < |h.rec| && h.rec[e].Cell?
    requires |h'.nref| == |h.nref| && h'.nref == h.nref[e := 0]
    requires h' == Heap(h.rec[e := Emptied(h.rec[e])], h.out[e := []], h'.nref, h.live - {e}, [e] + h.freelist, h.sp)
    ensures HeapInv(lay, h', torn - {e}, tokens)
  {
    FinishTeardown(h.out, h.nref, h'.nref, h.live, lay.immortal, torn, tokens, e);
    assert NodeOk(lay, h, e);
    forall n: Node | n < |h.rec|
      ensures NodeOk(lay, h', n)
    {
      assert NodeOk(lay, h, n);
      NodeFinished(lay, h, e, h', n);
    }
  }

  /** The end of an environment's teardown: a slot on top of the arena is handed back. */
  lemma StepFinishEnv(lay: Layout, h: Heap, torn: set<Node>, tokens: multiset<Node>, e: Node, h': Heap)
    requires HeapInv(lay, h, torn, tokens) && e in torn && IsEnv(h.rec, e)
    requires |h'.nref| == |h.nref| && h' == Heap(h.rec[e := Emptied(h.rec[e])], h.out[e := []],
        h.nref[e := h'.nref[e]], h.live - {e}, h.freelist,
                        if lay.lo <= e < lay.hi && e + 1 == h.sp then e else h.sp)
    ensures HeapInv(lay, h', torn - {e}, tokens)
  {
    FinishTeardown(h.out, h.nref, h'.nref, h.live, lay.immortal, torn, tokens, e);
    assert NodeOk(lay, h, e);
    forall n: Node | n < |h.rec|
      ensures NodeOk(lay, h', n)
    {
      assert NodeOk(lay, h, n);
      NodeFinished(lay, h, e, h', n);
    }
  }

  lemma NodeFinished(lay: Layout, h: Heap, e: Node, h': Heap, n: Node)
    requires |h.rec| == |h.out| == |h.nref| == |h'.nref| && n < |h.rec| && NodeOk(lay, h, n)
    requires e < |h.rec| && e in h.live && NodeOk(lay, h, e)
    requires h'.rec == h.rec[e := Emptied(h.rec[e])] && h'.out == h.out[e := []] && h'.live == h.live - {e}
    requires h'.nref == h.nref[e := h'.nref[e]] && (h.rec[e].Cell? ==> h'.nref[e] == 0)
    requires n in h'.freelist <==> n in h.freelist || (n == e && h.rec[e].Cell?)
    requires h.sp <= h'.sp || (h'.sp == e && h.sp == e + 1)
    ensures NodeOk(lay, h', n)
  {
    if n == e {
      TypedEmptied(h'.rec, h.rec[e]);
    } else {
      TypedStable(h.rec, h'.rec, h.rec[n]);
    }
  }

  /** A dying closure forgets the environment it captured. */
  lemma StepForget(lay: Layout, h: Heap, torn: set<Node>, tokens: multiset<Node>, c: Node, h': Heap)
    requires HeapInv(lay, h, torn, tokens) && c in torn && c < |h.rec| && h.rec[c].Cell? && c < |h.out|
    requires h' == h.(rec := h.rec[c := h.rec[c].(capture := None)], out := h.out[c := Kids(h.rec[c])])
    ensures HeapInv(lay, h', torn, tokens)
  {
    ChangeTorn(h.out, h'.out, h.nref, h.live, lay.immortal, torn, tokens);
    assert Owned(h'.rec[c]) == Kids(h.rec[c]);
    forall n: Node | n < |h.rec|
      ensures NodeOk(lay, h', n)
    {
      assert NodeOk(lay, h, n);
      TypedStable(h.rec, h'.rec, h.rec[n]);
    }
  }

  // ---- breaking a cycle between an environment and its own closures ----

  /** A binding whose only reference is that binding is bound once. */
  lemma BoundOnce(lay: Layout, h: Heap, torn: set<Node>, tokens: multiset<Node>, v: Node, i: nat, j: nat)
    requires HeapInv(lay, h, torn, tokens) && IsEnv(h.rec, v) && v in h.live && v !in torn
    requires i < |Bindings(h.rec[v])| && j < |Bindings(h.rec[v])|
    requires IsSelfClosure(h.rec, Bindings(h.rec[v])[i], v) && h.nref[Bindings(h.rec[v])[i]] == 1
    ensures Bindings(h.rec[v])[i] in h.live && Bindings(h.rec[v])[i] !in torn && Bindings(h.rec[v])[i] !in lay.immortal
    ensures i != j ==> Bindings(h.rec[v])[i] != Bindings(h.rec[v])[j]
  {
    var s, c := Bindings(h.rec[v]), Bindings(h.rec[v])[i];
    assert NodeOk(lay, h, v) && NodeOk(lay, h, c);
    var tail := Opt(h.rec[v].caller) + UpRefs(h.rec[v]);
    assert h.out[v] == s + tail;
    assert h.out[v][i] == c;
    EdgeTarget(h.out, h.nref, h.live, lay.immortal, torn, tokens, v, c);
    assert Counted(h.out, h.nref, h.live, torn, tokens, c);
    InEdgesRemove(h.out, h.live - torn, v, c);
    assert multiset(h.out[v])[c] <= 1;
    if i != j && s[j] == c {
      TwiceCounted(h.out[v], i, j);
    }
  }

  lemma TwiceCounted(s: seq<Node>, i: nat, j: nat)
    requires i < |s| && j < |s| && i != j && s[i] == s[j]
    ensures multiset(s)[s[i]] >= 2
  {
    var lo, hi := if i < j then i else j, if i < j then j else i;
    assert s == s[..lo] + [s[lo]] + s[lo + 1..hi] + [s[hi]] + s[hi + 1..];
  }

  /** Cutting the capture of one closure. */
  lemma StepSever(lay: Layout, h: Heap, torn: set<Node>, tokens: multiset<Node>, c: Node, v: Node, h': Heap)
    requires HeapInv(lay, h, torn, tokens) && c in h.live && c !in torn && IsSelfClosure(h.rec, c, v)
    requires c < |h.out| && h' == h.(rec := h.rec[c := h.rec[c].(capture := None)],
                                     out := h.out[c := Owned(h.rec[c].(capture := None))])
    ensures HeapInv(lay, h', torn, tokens + multiset{v})
  {
    assert NodeOk(lay, h, c);
    var kept := Owned(h'.rec[c]);
    assert kept == Kids(h.rec[c]) && h.out[c] == kept + [v];
    SeverEdge(h.out, h.nref, h.live, lay.immortal, torn, tokens, c, kept, v);
    forall n: Node | n < |h.rec|
      ensures NodeOk(lay, h', n)
    {
      assert NodeOk(lay, h, n);
      TypedStable(h.rec, h'.rec, h.rec[n]);
    }
  }

  /** `h'` is `h` with some closures bound only in `v` no longer holding `v`. */
  ghost predicate CycleCut(lay: Layout, torn: set<Node>, v: Node, h: Heap, h': Heap)
    requires IsEnv(h.rec, v)
  {
    && |h'.rec| == |h.rec| == |h'.nref| == |h.nref| && h'.live == h.live
    && h'.rec[v] == h.rec[v]
    && (forall n: Node {:trigger CutAt(lay, torn, v, h, h', n)} :: n < |h.rec| ==> CutAt(lay, torn, v, h, h', n))
  }

  ghost predicate CutAt(lay: Layout, torn: set<Node>, v: Node, h: Heap, h': Heap, n: Node)
    requires IsEnv(h.rec, v) && n < |h.rec| == |h'.rec| == |h'.nref| == |h.nref|
  {
    && h'.nref[n] <= h.nref[n] && (n in torn ==> h'.nref[n] == h.nref[n])
    && (h'.rec[n].Cell? <==> h.rec[n].Cell?)
    && (h'.rec[n] == h.rec[n]
        || (n in Bindings(h.rec[v]) && h'.nref[n] == 1 && n in h.live && n !in lay.immortal && n !in torn))
  }

  lemma CycleCutNone(lay: Layout, torn: set<Node>, v: Node, h: Heap)
    requires |h.rec| == |h.nref| && IsEnv(h.rec, v)
    ensures CycleCut(lay, torn, v, h, h)
  {
    forall n: Node | n < |h.rec|
      ensures CutAt(lay, torn, v, h, h, n)
    {
    }
  }

  lemma BindingsAreCells(lay: Layout, h: Heap, torn: set<Node>, tokens: multiset<Node>, v: Node)
    requires HeapInv(lay, h, torn, tokens) && IsEnv(h.rec, v)
    ensures AreCells(h.rec, Bindings(h.rec[v])) && v !in lay.immortal
  {
    assert NodeOk(lay, h, v);
  }

  lemma CycleCutCounted(lay: Layout, torn: set<Node>, v: Node, h: Heap, h1: Heap, h2: Heap)
    requires IsEnv(h.rec, v) && v !in torn && |h.nref| == |h.rec| == |h1.nref| && h1 == h.(nref := h1.nref)
    requires h1.nref[v] <= h.nref[v] && forall n | 0 <= n < |h.nref| && n != v :: h1.nref[n] == h.nref[n]
    requires CycleCut(lay, torn, v, h1, h2)
    ensures CycleCut(lay, torn, v, h, h2)
  {
    forall n: Node | n < |h.rec|
      ensures CutAt(lay, torn, v, h, h2, n)
    {
      assert CutAt(lay, torn, v, h1, h2, n);
    }
  }

  /** When the closures of `v` hold all its references, `v` can be torn down. */
  lemma StepBroken(lay: Layout, h: Heap, torn: set<Node>, tokens: multiset<Node>, v: Node)
    requires v < |h.nref| && h.nref[v] > 0 && v !in lay.immortal
    requires HeapInv(lay, h, torn, tokens[v := tokens[v] + h.nref[v]])
    ensures v in h.live && v !in torn
    ensures HeapInv(lay, h, torn + {v}, tokens + multiset(Owned(h.rec[v])))
  {
    var t := tokens[v := tokens[v] + h.nref[v]];
    TokenOk(lay, h, torn, t, v);
    StepBegin(lay, h, torn, t, v, h);
    assert t[v := 0] == tokens;
  }

  lemma CycleCutOneMore(lay: Layout, torn: set<Node>, v: Node, h0: Heap, h: Heap, c: Node, h': Heap)
    requires IsEnv(h0.rec, v) && CycleCut(lay, torn, v, h0, h)
    requires c in Bindings(h0.rec[v]) && c < |h.rec| && h.rec[c].Cell? && h.nref[c] == 1
    requires c in h.live && c !in lay.immortal && c !in torn && |h'.out| == |h.out|
    requires h' == h.(rec := h.rec[c := h.rec[c].(capture := None)], out := h'.out)
    ensures CycleCut(lay, torn, v, h0, h')
  {
    assert CutAt(lay, torn, v, h0, h, v);
    forall n: Node | n < |h0.rec|
      ensures CutAt(lay, torn, v, h0, h', n)
    {
      assert CutAt(lay, torn, v, h0, h, n);
    }
  }

  /** Once the bindings of `v` have been released, nothing is left of the cut. */
  lemma CutThenReleased(lay: Layout, torn: set<Node>, tokens: multiset<Node>, v: Node, h: Heap, h1: Heap, h2: Heap)
    requires IsEnv(h.rec, v) && CycleCut(lay, torn, v, h, h1) && OnlyReleased(torn, h1, h2)
    requires HeapInv(lay, h2, torn, tokens)
    requires forall i | 0 <= i < |Bindings(h.rec[v])| && Bindings(h.rec[v])[i] !in lay.immortal ::
               var c := Bindings(h.rec[v])[i]; c < |h2.nref| && c < |h1.nref| && h2.nref[c] < h1.nref[c]
    ensures OnlyReleased(torn, h, h2)
  {
    forall n: Node | n < |h.rec|
      ensures Released(torn, h, h2, n)
    {
      assert CutAt(lay, torn, v, h, h1, n);
      assert Released(torn, h1, h2, n);
      if h1.rec[n] != h.rec[n] {
        var i :| 0 <= i < |Bindings(h.rec[v])| && Bindings(h.rec[v])[i] == n;
        assert Counted(h2.out, h2.nref, h2.live, torn, tokens, n);
      }
    }
  }

  // ---- allocating an environment ----

  /** Memory for one more environment, cleared. */
  lemma StepExtend(lay: Layout, h: Heap, torn: set<Node>, tokens: multiset<Node>, h': Heap)
    requires HeapInv(lay, h, torn, tokens)
    requires h' == h.(rec := h.rec + [Env([], [], None, None, false)], out := h.out + [[]], nref := h.nref + [0])
    ensures HeapInv(lay, h', torn, tokens)
  {
    ExtendDead(h.out, h.nref, h.live, lay.immortal, torn, tokens, 0);
    forall n: Node | n < |h'.rec|
      ensures NodeOk(lay, h', n)
    {
      if n < |h.rec| {
        assert NodeOk(lay, h, n);
        TypedStable(h.rec, h'.rec, h.rec[n]);
      }
    }
  }

  /** Environment slot `e` starts its life under `root`. */
  lemma StepMakeEnv(lay: Layout, h: Heap, torn: set<Node>, tokens: multiset<Node>, e: Node, root: Option<Node>,
      h': Heap)
    requires HeapInv(lay, h, torn, tokens) && IsEnv(h.rec, e) && e !in h.live
    requires lay.lo <= e < lay.hi ==> e < h.sp
    requires root.Some? ==> IsEnv(h.rec, root.value) && root.value in h.live && root.value !in torn
    requires h' == h.(rec := h.rec[e := Env([], [], None, root, false)], out := h.out[e := Opt(root)],
                      nref := h'.nref, live := h.live + {e})
    requires |h'.nref| == |h.nref| && forall m: Node | m < |h.nref| ::
               h'.nref[m] == if m == e then 1 else if root == Some(m) then h.nref[m] + 1 else h.nref[m]
    ensures HeapInv(lay, h', torn, tokens + multiset{e})
  {
    assert NodeOk(lay, h, e);
    assert root.Some? ==> NodeOk(lay, h, root.value);
    Revive(h.out, h.nref, h.live, lay.immortal, torn, tokens, e, Opt(root), h'.nref);
    forall n: Node | n < |h'.rec|
      ensures NodeOk(lay, h', n)
    {
      NodeRevived(lay, h, e, root, h', n);
    }
  }

  lemma NodeRevived(lay: Layout, h: Heap, e: Node, root: Option<Node>, h': Heap, n: Node)
    requires |h.rec| == |h.out| == |h.nref| && n < |h.rec| && NodeOk(lay, h, n)
    requires e < |h.rec| && IsEnv(h.rec, e) && e !in lay.tail && e !in lay.immortal
    requires (lay.lo <= e < lay.hi ==> e < h.sp) && (root.Some? ==> IsEnv(h.rec, root.value))
    requires |h'.nref| == |h.nref| && h' == h.(rec := h.rec[e := Env([], [], None, root, false)],
        out := h.out[e := Opt(root)],
                                               nref := h'.nref, live := h.live + {e})
    requires n != e && h.rec[n].Cell? ==> h'.nref[n] == h.nref[n]
    ensures NodeOk(lay, h', n)
  {
    if n == e {
      assert Owned(h'.rec[e]) == Opt(root);
    } else {
      TypedStable(h.rec, h'.rec, h.rec[n]);
    }
  }

  // ---- what the invariant means ----

  /** Safety of every release: what can be reached from a reference still held, or from an
      immortal, is still alive and still owns the same things. */
  lemma {:induction false} ReachableSurvives(lay: Layout, h: Heap, h': Heap, torn: set<Node>, tokens: multiset<Node>,
                                             roots: iset<Node>, p: seq<Node>)
    requires Shaped(lay, h) && OnlyReleased(torn, h, h') && HeapInv(lay, h', torn, tokens)
    requires forall n | n in roots :: n in tokens || n in lay.immortal
    requires Path(h.out, roots, p)
    ensures var n := p[|p| - 1];
            n in h'.live && n !in torn && n < |h'.rec| == |h.rec| && h'.rec[n] == h.rec[n]
    decreases |p|
  {
    var n := p[|p| - 1];
    if |p| == 1 {
      if n in tokens {
        TokenOk(lay, h', torn, tokens, n);
      }
    } else {
      var m := p[|p| - 2];
      PathPrefix(h.out, roots, p);
      ReachableSurvives(lay, h, h', torn, tokens, roots, p[..|p| - 1]);
      assert NodeOk(lay, h, m) && NodeOk(lay, h', m);
      EdgeTarget(h'.out, h'.nref, h'.live, lay.immortal, torn, tokens, m, n);
    }
    assert Released(torn, h, h', n);
  }

  /** Where references from outside the graph lead: to the targets of tokens and the immortals. */
  ghost function KeptAlive(lay: Layout, tokens: multiset<Node>): iset<Node> {
    iset n: Node | n in tokens || n in lay.immortal
  }

  lemma ReachableStays(lay: Layout, h: Heap, h': Heap, tokens: multiset<Node>, n: Node)
    requires Shaped(lay, h) && OnlyReleased({}, h, h') && HeapInv(lay, h', {}, tokens)
    requires Reachable(h.out, KeptAlive(lay, tokens), n)
    ensures n in h'.live && n < |h'.rec| == |h.rec| && h'.rec[n] == h.rec[n]
  {
    var p :| Path(h.out, KeptAlive(lay, tokens), p) && p[|p| - 1] == n;
    ReachableSurvives(lay, h, h', {}, tokens, KeptAlive(lay, tokens), p);
  }

  /** The closures over `v` among the first `i` entries of `s`. */
  ghost function SelfClosures(rec: seq<Rec>, s: seq<Node>, v: Node, i: nat): set<Node>
    requires i <= |s|
  {
    if i == 0 then {}
    else SelfClosures(rec, s, v, i - 1) + (if IsSelfClosure(rec, s[i - 1], v) then {s[i - 1]} else {})
  }

  lemma {:induction false} SelfClosuresSpec(rec: seq<Rec>, s: seq<Node>, v: Node, i: nat)
    requires i <= |s|
    ensures forall c :: c in SelfClosures(rec, s, v, i) <==> c in s[..i] && IsSelfClosure(rec, c, v)
  {
    if i != 0 {
      SelfClosuresSpec(rec, s, v, i - 1);
      assert s[..i] == s[..i - 1] + [s[i - 1]];
    } else {
      assert s[..0] == [];
    }
  }

  /** The next of an environment's own closures is none of those before it, and holds one reference to it. */
  lemma NextOwn(lay: Layout, h: Heap, torn: set<Node>, tokens: multiset<Node>, v: Node, i: nat)
    requires HeapInv(lay, h, torn, tokens) && IsEnv(h.rec, v) && v in h.live && v !in torn
    requires 0 < i <= |Bindings(h.rec[v])| && IsSelfClosure(h.rec, Bindings(h.rec[v])[i - 1], v)
    requires SoleOwner(h.rec, h.nref, Bindings(h.rec[v]), v, |Bindings(h.rec[v])|)
    ensures var c := Bindings(h.rec[v])[i - 1];
            && c < |h.out| && c in h.live - torn - SelfClosures(h.rec, Bindings(h.rec[v]), v, i - 1)
            && multiset(h.out[c])[v] == 1
  {
    var s := Bindings(h.rec[v]);
    var c := s[i - 1];
    BoundOnce(lay, h, torn, tokens, v, i - 1, i - 1);
    SelfClosuresSpec(h.rec, s, v, i - 1);
    if c in SelfClosures(h.rec, s, v, i - 1) {
      var j :| 0 <= j < i - 1 && s[..i - 1][j] == c;
      BoundOnce(lay, h, torn, tokens, v, i - 1, j);
    }
    assert NodeOk(lay, h, c);
    CapturedOnce(h.rec, h.rec[c], v);
  }

  /** Each of an environment's own closures holds exactly one reference to it. */
  lemma {:induction false} SelfClosuresHold(lay: Layout, h: Heap, torn: set<Node>, tokens: multiset<Node>, v: Node,
      i: nat)
    requires HeapInv(lay, h, torn, tokens) && IsEnv(h.rec, v) && v in h.live && v !in torn
    requires i <= |Bindings(h.rec[v])|
    requires SoleOwner(h.rec, h.nref, Bindings(h.rec[v]), v, |Bindings(h.rec[v])|)
    ensures InEdges(h.out, h.live - torn, v)
         == InEdges(h.out, h.live - torn - SelfClosures(h.rec, Bindings(h.rec[v]), v, i), v)
            + SelfRefs(h.rec, Bindings(h.rec[v]), v, i)
  {
    hide HeapInv, InEdges, SoleOwner, IsSelfClosure;
    var s := Bindings(h.rec[v]);
    if i == 0 {
      assert h.live - torn - {} == h.live - torn;
    } else {
      SelfClosuresHold(lay, h, torn, tokens, v, i - 1);
      var c, before := s[i - 1], SelfClosures(h.rec, s, v, i - 1);
      if IsSelfClosure(h.rec, c, v) {
        NextOwn(lay, h, torn, tokens, v, i);
        InEdgesRemove(h.out, h.live - torn - before, c, v);
        assert h.live - torn - before - {c} == h.live - torn - SelfClosures(h.rec, s, v, i);
      } else {
        assert SelfClosures(h.rec, s, v, i) == before;
      }
    }
  }

  lemma CapturedOnce(rec: seq<Rec>, r: Rec, v: Node)
    requires TypedNode(rec, r) && IsEnv(rec, v) && Up(r) == Some(v)
    ensures multiset(Owned(r))[v] == 1
  {
    TypedKids(rec, r);
    assert v !in Kids(r);
    assert UpRefs(r) == [v];
  }

  /** `env_break_self_cycle` answers 1 only for an environment that nothing outside needs: no token
      refers to it, and each node that refers to it is one of its own closures, which in turn
      nothing but the environment refers to. */
  lemma BreakableMeans(lay: Layout, h: Heap, torn: set<Node>, tokens: multiset<Node>, v: Node, m: Node)
    requires HeapInv(lay, h, torn, tokens) && IsEnv(h.rec, v) && v in h.live && v !in torn
    requires Breakable(h.rec, h.nref, v, h.nref[v])
    ensures tokens[v] == 0
    ensures m in h.live && m !in torn && m < |h.rec| && v in Owned(h.rec[m])
            ==> && m in Bindings(h.rec[v]) && IsSelfClosure(h.rec, m, v)
                && tokens[m] == 0
                && (forall k | k in h.live && k !in torn && k < |h.rec| && m in Owned(h.rec[k]) :: k == v)
  {
    var s := Bindings(h.rec[v]);
    BindingsAreCells(lay, h, torn, tokens, v);
    SelfClosuresHold(lay, h, torn, tokens, v, |s|);
    SelfClosuresSpec(h.rec, s, v, |s|);
    assert s[..|s|] == s;
    assert Counted(h.out, h.nref, h.live, torn, tokens, v);
    if m in h.live && m !in torn && m < |h.rec| && v in Owned(h.rec[m]) {
      assert NodeOk(lay, h, m);
      InEdgesPositive(h.out, h.live - torn - SelfClosures(h.rec, s, v, |s|), v);
      assert m in SelfClosures(h.rec, s, v, |s|);
      var i :| 0 <= i < |s| && s[i] == m;
      OnlyFrom(lay, h, torn, tokens, v, i);
    }
  }

  lemma BoundOwned(r: Rec, i: nat)
    requires r.Env? && i < |Bindings(r)|
    ensures multiset(Owned(r))[Bindings(r)[i]] > 0
  {
    assert Owned(r) == Bindings(r) + (Opt(r.caller) + UpRefs(r));
    assert Owned(r)[i] == Bindings(r)[i];
  }

  /** A closure with one reference, bound in `v`, is referred to by `v` alone. */
  lemma OnlyFrom(lay: Layout, h: Heap, torn: set<Node>, tokens: multiset<Node>, v: Node, i: nat)
    requires HeapInv(lay, h, torn, tokens) && IsEnv(h.rec, v) && v in h.live && v !in torn
    requires i < |Bindings(h.rec[v])|
    requires IsSelfClosure(h.rec, Bindings(h.rec[v])[i], v) && h.nref[Bindings(h.rec[v])[i]] == 1
    ensures tokens[Bindings(h.rec[v])[i]] == 0
    ensures forall k | k in h.live && k !in torn && k < |h.rec| && Bindings(h.rec[v])[i] in Owned(h.rec[k]) :: k == v
  {
    var c := Bindings(h.rec[v])[i];
    BoundOnce(lay, h, torn, tokens, v, i, i);
    assert NodeOk(lay, h, v);
    BoundOwned(h.rec[v], i);
    assert Counted(h.out, h.nref, h.live, torn, tokens, c);
    InEdgesRemove(h.out, h.live - torn, v, c);
    forall k | k in h.live && k !in torn && k < |h.rec| && c in Owned(h.rec[k])
      ensures k == v
    {
      assert NodeOk(lay, h, k);
      InEdgesPositive(h.out, h.live - torn - {v}, c);
    }
  }

  // ---- an environment that only its own closures hold ----

  /** Node `m` is alive, is not being torn down, and owns a reference to `n`. */
  ghost predicate Refers(h: Heap, torn: set<Node>, m: Node, n: Node) {
    m in h.live && m !in torn && m < |h.rec| && n in Owned(h.rec[m])
  }

  /** Node `m` is an unshared closure over `v`, bound in `v` once, that nothing else refers to. */
  ghost predicate OwnClosure(h: Heap, torn: set<Node>, tokens: multiset<Node>, v: Node, m: Node)
    requires IsEnv(h.rec, v)
  {
    && IsCell(h.rec, m) && h.rec[m].kind == Closure(false) && h.rec[m].capture == Some(v)
    && m in h.rec[v].slots + h.rec[v].over && multiset(Owned(h.rec[v]))[m] == 1
    && tokens[m] == 0 && forall k: Node {:trigger Refers(h, torn, k, m)} :: Refers(h, torn, k, m) ==> k == v
  }

  /** No token refers to `v`, some node does, and every node that does is such a closure. */
  ghost predicate HeldByItself(h: Heap, torn: set<Node>, tokens: multiset<Node>, v: Node)
    requires IsEnv(h.rec, v)
  {
    && tokens[v] == 0 && (exists m: Node :: Refers(h, torn, m, v))
    && forall m: Node {:trigger Refers(h, torn, m, v)} :: Refers(h, torn, m, v) ==> OwnClosure(h, torn, tokens, v, m)
  }

  /** Such a closure has one reference. */
  lemma OwnClosureOnce(lay: Layout, h: Heap, torn: set<Node>, tokens: multiset<Node>, v: Node, m: Node)
    requires HeapInv(lay, h, torn, tokens) && IsEnv(h.rec, v) && v in h.live && v !in torn
    requires OwnClosure(h, torn, tokens, v, m) && m in h.live && m !in torn
    ensures m < |h.nref| && h.nref[m] == 1 && m !in lay.immortal
  {
    assert NodeOk(lay, h, v) && NodeOk(lay, h, m);
    assert Counted(h.out, h.nref, h.live, torn, tokens, m);
    InEdgesRemove(h.out, h.live - torn, v, m);
    if InEdges(h.out, h.live - torn - {v}, m) > 0 {
      InEdgesPositive(h.out, h.live - torn - {v}, m);
      var k: Node :| k < |h.out| && k in h.live - torn - {v} && m in h.out[k];
      assert NodeOk(lay, h, k);
      assert Refers(h, torn, k, m);
    }
  }

  /** A binding of `v` is alive. */
  lemma BindingLives(lay: Layout, h: Heap, torn: set<Node>, tokens: multiset<Node>, v: Node, j: nat)
    requires HeapInv(lay, h, torn, tokens) && IsEnv(h.rec, v) && v in h.live && v !in torn
    requires j < |Bindings(h.rec[v])| && IsSelfClosure(h.rec, Bindings(h.rec[v])[j], v)
    ensures Refers(h, torn, Bindings(h.rec[v])[j], v)
  {
    var c := Bindings(h.rec[v])[j];
    assert NodeOk(lay, h, v) && NodeOk(lay, h, c);
    BoundOwned(h.rec[v], j);
    EdgeTarget(h.out, h.nref, h.live, lay.immortal, torn, tokens, v, c);
    assert Owned(h.rec[c])[|Kids(h.rec[c])|] == v;
  }

  lemma HeldBreaks(lay: Layout, h: Heap, torn: set<Node>, tokens: multiset<Node>, v: Node)
    requires HeapInv(lay, h, torn, tokens) && IsEnv(h.rec, v) && v in h.live && v !in torn
    requires HeldByItself(h, torn, tokens, v)
    ensures Breakable(h.rec, h.nref, v, h.nref[v])
  {
    var s := Bindings(h.rec[v]);
    BindingsAreCells(lay, h, torn, tokens, v);
    forall j | 0 <= j < |s| && IsSelfClosure(h.rec, s[j], v) ensures s[j] < |h.nref| && h.nref[s[j]] == 1 {
      BindingLives(lay, h, torn, tokens, v, j);
      OwnClosureOnce(lay, h, torn, tokens, v, s[j]);
    }
    SelfClosuresHold(lay, h, torn, tokens, v, |s|);
    SelfClosuresSpec(h.rec, s, v, |s|);
    assert s[..|s|] == s;
    assert Counted(h.out, h.nref, h.live, torn, tokens, v);
    var others := h.live - torn - SelfClosures(h.rec, s, v, |s|);
    if InEdges(h.out, others, v) > 0 {
      InEdgesPositive(h.out, others, v);
      var m: Node :| m < |h.out| && m in others && v in h.out[m];
      assert NodeOk(lay, h, m);
      assert Refers(h, torn, m, v);
    }
  }

  lemma BreakableHeld(lay: Layout, h: Heap, torn: set<Node>, tokens: multiset<Node>, v: Node)
    requires HeapInv(lay, h, torn, tokens) && IsEnv(h.rec, v) && v in h.live && v !in torn
    requires Breakable(h.rec, h.nref, v, h.nref[v])
    ensures HeldByItself(h, torn, tokens, v)
  {
    hide HeapInv, Breakable, OwnClosure;
    SomeReferrer(lay, h, torn, tokens, v);
    forall c: Node | Refers(h, torn, c, v) ensures OwnClosure(h, torn, tokens, v, c) {
      BreakableOwn(lay, h, torn, tokens, v, c);
    }
  }

  lemma SomeReferrer(lay: Layout, h: Heap, torn: set<Node>, tokens: multiset<Node>, v: Node)
    requires HeapInv(lay, h, torn, tokens) && IsEnv(h.rec, v) && v in h.live && v !in torn
    requires Breakable(h.rec, h.nref, v, h.nref[v])
    ensures tokens[v] == 0 && exists m: Node :: Refers(h, torn, m, v)
  {
    BindingsAreCells(lay, h, torn, tokens, v);
    BreakableMeans(lay, h, torn, tokens, v, v);
    assert Counted(h.out, h.nref, h.live, torn, tokens, v);
    InEdgesPositive(h.out, h.live - torn, v);
    var m: Node :| m < |h.out| && m in h.live - torn && v in h.out[m];
    assert NodeOk(lay, h, m);
    assert Refers(h, torn, m, v);
  }

  lemma BreakableOwn(lay: Layout, h: Heap, torn: set<Node>, tokens: multiset<Node>, v: Node, c: Node)
    requires HeapInv(lay, h, torn, tokens) && IsEnv(h.rec, v) && v in h.live && v !in torn
    requires Breakable(h.rec, h.nref, v, h.nref[v]) && Refers(h, torn, c, v)
    ensures OwnClosure(h, torn, tokens, v, c)
  {
    BreakableMeans(lay, h, torn, tokens, v, c);
    var s := Bindings(h.rec[v]);
    var j :| 0 <= j < |s| && s[j] == c;
    BoundSingly(lay, h, torn, tokens, v, j);
    hide HeapInv, Breakable;
    assert IsSelfClosure(h.rec, c, v);
  }

  lemma BoundSingly(lay: Layout, h: Heap, torn: set<Node>, tokens: multiset<Node>, v: Node, j: nat)
    requires HeapInv(lay, h, torn, tokens) && IsEnv(h.rec, v) && v in h.live && v !in torn
    requires j < |Bindings(h.rec[v])| && IsSelfClosure(h.rec, Bindings(h.rec[v])[j], v)
    requires h.nref[Bindings(h.rec[v])[j]] == 1
    ensures multiset(Owned(h.rec[v]))[Bindings(h.rec[v])[j]] == 1
  {
    var c := Bindings(h.rec[v])[j];
    BoundOnce(lay, h, torn, tokens, v, j, j);
    assert NodeOk(lay, h, v);
    BoundOwned(h.rec[v], j);
    assert Counted(h.out, h.nref, h.live, torn, tokens, c);
    InEdgesRemove(h.out, h.live - torn, v, c);
  }

  /** Whether `v` is held by itself does not depend on its count. */
  lemma HeldSame(h: Heap, h1: Heap, torn: set<Node>, tokens: multiset<Node>, v: Node)
    requires IsEnv(h.rec, v) && h1 == h.(nref := h1.nref)
    ensures HeldByItself(h1, torn, tokens, v) <==> HeldByItself(h, torn, tokens, v)
  {
    assert forall m: Node, n: Node {:trigger Refers(h, torn, m, n)} {:trigger Refers(h1, torn, m, n)} ::
        Refers(h1, torn, m, n) <==> Refers(h, torn, m, n);
    assert forall m: Node {:trigger OwnClosure(h, torn, tokens, v, m)} {:trigger OwnClosure(h1, torn, tokens, v, m)} ::
        OwnClosure(h1, torn, tokens, v, m) <==> OwnClosure(h, torn, tokens, v, m);
  }

  /** Without a reference there is no life. */
  lemma NoneLeft(lay: Layout, h: Heap, torn: set<Node>, tokens: multiset<Node>, m: Node)
    requires HeapInv(lay, h, torn, tokens) && m !in torn && m !in lay.immortal && m < |h.nref| && h.nref[m] < 1
    ensures m !in h.live
  {
    assert Counted(h.out, h.nref, h.live, torn, tokens, m);
  }

  /** `env_break_self_cycle` answers 1 exactly for an environment that nothing but its own closures holds. */
  lemma BreakableExactly(lay: Layout, h: Heap, torn: set<Node>, tokens: multiset<Node>, v: Node)
    requires HeapInv(lay, h, torn, tokens) && IsEnv(h.rec, v) && v in h.live && v !in torn
    ensures v < |h.nref| && (Breakable(h.rec, h.nref, v, h.nref[v]) <==> HeldByItself(h, torn, tokens, v))
  {
    hide Breakable, HeldByItself;
    if Breakable(h.rec, h.nref, v, h.nref[v]) {
      BreakableHeld(lay, h, torn, tokens, v);
    }
    if HeldByItself(h, torn, tokens, v) {
      HeldBreaks(lay, h, torn, tokens, v);
    }
  }
}
