/** The side tables of the collector, and what counting keeps true of them. */
module CollectorTally {
  import opened Wrappers
  import opened RefGraph
  import opened HeapModel
  import opened CycleTheory

  /** The per-node state bits. */
  datatype Flags = Flags(live: bool, walk: bool, mark: bool, dead: bool)

  /** A discovered environment: its counted references and its state bits. */
  datatype EnvNode = EnvNode(env: Node, interns: int, flags: Flags)

  const CLEAR := Flags(false, false, false, false)

  ghost predicate InTable(envs: seq<EnvNode>, v: Node) {
    exists i :: 0 <= i < |envs| && envs[i].env == v
  }

  ghost predicate Distinct(envs: seq<EnvNode>) {
    forall i, j | 0 <= i < j < |envs| :: envs[i].env != envs[j].env
  }

  /** How far counting has come: `walked` are the nodes whose references have been counted, `done`
      the number of cells looked at, `owed` an environment reference still to be counted. */
  ghost predicate Tally(lay: Layout, h: Heap, ncells: nat, done: nat, envs: seq<EnvNode>, walked: set<Node>,
                        counted: multiset<Node>, owed: Option<Node>) {
    && done <= ncells <= |h.rec|
    && (forall n: Node | n < ncells :: h.rec[n].Cell?)
    && (forall n: Node {:trigger CellTally(lay, h, done, walked, n)} ::
        n < ncells ==> CellTally(lay, h, done, walked, n))
    && (forall n {:trigger n in walked} | n in walked :: n < ncells || InTable(envs, n))
    && (forall i {:trigger EnvTally(lay, h, ncells, walked, envs[i])} | 0 <= i < |envs| ::
      EnvTally(lay, h, ncells, walked, envs[i]))
    && (forall n: Node {:trigger UpTally(h, envs, owed, n)} :: n in walked && n < |h.rec| ==> UpTally(h, envs, owed, n))
    && (owed.Some? ==> IsEnv(h.rec, owed.value) && owed.value in h.live && Discoverable(lay, h, ncells, owed.value))
    && (forall n: Node {:trigger EdgeTally(h, envs, walked, counted, owed, n)} ::
      EdgeTally(h, envs, walked, counted, owed, n))
  }

  ghost predicate CellTally(lay: Layout, h: Heap, done: nat, walked: set<Node>, n: Node)
    requires n < |h.rec|
  {
    n in walked <==> IsStart(lay, h, done, n)
  }

  ghost predicate EnvTally(lay: Layout, h: Heap, ncells: nat, walked: set<Node>, e: EnvNode) {
    && IsEnv(h.rec, e.env) && e.env in walked && e.env in h.live && Discoverable(lay, h, ncells, e.env)
    && e.flags == Flags(true, true, false, false)
  }

  ghost predicate UpTally(h: Heap, envs: seq<EnvNode>, owed: Option<Node>, n: Node)
    requires n < |h.rec|
  {
    Up(h.rec[n]).Some? ==> Up(h.rec[n]) == owed || InTable(envs, Up(h.rec[n]).value)
  }

  ghost predicate EdgeTally(h: Heap, envs: seq<EnvNode>, walked: set<Node>, counted: multiset<Node>,
                            owed: Option<Node>, n: Node) {
    && counted[n] + multiset(Opt(owed))[n] == InEdges(h.out, walked, n)
    && (counted[n] > 0 ==> InTable(envs, n) || IsCell(h.rec, n))
  }

  /** `envs'` lists the same environments with the same state bits. */
  ghost predicate SameTable(envs: seq<EnvNode>, envs': seq<EnvNode>) {
    |envs| <= |envs'| && forall i | 0 <= i < |envs| :: envs'[i].env == envs[i].env && envs'[i].flags == envs[i].flags
  }

  lemma SameTableIn(envs: seq<EnvNode>, envs': seq<EnvNode>, v: Node)
    requires SameTable(envs, envs') && InTable(envs, v)
    ensures InTable(envs', v)
  {
    var i :| 0 <= i < |envs| && envs[i].env == v;
    assert envs'[i].env == v;
  }

  /** A reference to an environment that has been walked already is just counted. */
  lemma TallyKnown(lay: Layout, h: Heap, ncells: nat, done: nat, envs: seq<EnvNode>, walked: set<Node>,
                   counted: multiset<Node>, v: Node, envs': seq<EnvNode>)
    requires Tally(lay, h, ncells, done, envs, walked, counted, Some(v))
    requires InTable(envs, v) && SameTable(envs, envs') && |envs'| == |envs|
    ensures Tally(lay, h, ncells, done, envs', walked, counted + multiset{v}, None)
  {
    forall n | InTable(envs, n)
      ensures InTable(envs', n)
    {
      SameTableIn(envs, envs', n);
    }
    forall n: Node | n in walked && n < |h.rec|
      ensures UpTally(h, envs', None, n)
    {
      assert UpTally(h, envs, Some(v), n);
    }
    forall n: Node
      ensures EdgeTally(h, envs', walked, counted + multiset{v}, None, n)
    {
      assert EdgeTally(h, envs, walked, counted, Some(v), n);
    }
    forall i | 0 <= i < |envs'|
      ensures EnvTally(lay, h, ncells, walked, envs'[i])
    {
      assert EnvTally(lay, h, ncells, walked, envs[i]);
    }
  }

  /** No cell is in the environment table. */
  lemma KidsNotInTable(lay: Layout, h: Heap, tokens: multiset<Node>, ncells: nat, envs: seq<EnvNode>,
      walked: set<Node>, v: Node, envs': seq<EnvNode>)
    requires HeapInv(lay, h, {}, tokens) && v < |h.rec| && (|envs'| > |envs| ==> IsEnv(h.rec, v))
    requires forall i {:trigger EnvTally(lay, h, ncells, walked, envs[i])} | 0 <= i < |envs| ::
        EnvTally(lay, h, ncells, walked, envs[i])
    requires SameTable(envs, envs') && |envs'| <= |envs| + 1 && (|envs'| > |envs| ==> envs'[|envs|].env == v)
    ensures forall i | 0 <= i < |Kids(h.rec[v])| :: !InTable(envs', Kids(h.rec[v])[i])
  {
    assert NodeOk(lay, h, v);
    TypedKids(h.rec, h.rec[v]);
    forall i, j | 0 <= i < |Kids(h.rec[v])| && 0 <= j < |envs'|
      ensures envs'[j].env != Kids(h.rec[v])[i]
    {
      if j < |envs| {
        assert EnvTally(lay, h, ncells, walked, envs[j]);
      }
    }
  }

  /** Walking `v` counts its cell references and leaves its environment reference owed. */
  lemma EdgeWalk(h: Heap, envs: seq<EnvNode>, walked: set<Node>, counted: multiset<Node>, v: Node, n: Node)
    requires v < |h.rec| == |h.out| && h.out[v] == Owned(h.rec[v]) && TypedNode(h.rec, h.rec[v]) && v !in walked
    requires EdgeTally(h, envs, walked, counted, None, n)
    ensures EdgeTally(h, envs, walked + {v}, counted + multiset(Kids(h.rec[v])), Up(h.rec[v]), n)
  {
    InEdgesAdd(h.out, walked, v, n);
    OwnedCount(h.rec[v], n);
    if n in multiset(Kids(h.rec[v])) {
      KidIsCell(h.rec, h.rec[v], n);
    }
  }

  lemma ParentOwed(lay: Layout, h: Heap, tokens: multiset<Node>, ncells: nat, v: Node)
    requires HeapInv(lay, h, {}, tokens) && v in h.live && v < |h.rec|
    requires Discoverable(lay, h, ncells, v) || IsStart(lay, h, ncells, v)
    requires Up(h.rec[v]).Some?
    ensures IsEnv(h.rec, Up(h.rec[v]).value) && Up(h.rec[v]).value in h.live
    ensures Discoverable(lay, h, ncells, Up(h.rec[v]).value)
  {
    assert NodeOk(lay, h, v);
    assert h.out[v][|Kids(h.rec[v])|] == Up(h.rec[v]).value;
    EdgeTarget(h.out, h.nref, h.live, lay.immortal, {}, tokens, v, Up(h.rec[v]).value);
    if IsStart(lay, h, ncells, v) {
      DiscoverCapture(lay, h, ncells, v);
    } else {
      DiscoverParent(lay, h, ncells, v);
    }
  }

  lemma EnvsFresh(lay: Layout, h: Heap, ncells: nat, envs: seq<EnvNode>, walked: set<Node>, v: Node,
      envs': seq<EnvNode>)
    requires forall i {:trigger EnvTally(lay, h, ncells, walked, envs[i])} | 0 <= i < |envs| ::
        EnvTally(lay, h, ncells, walked, envs[i])
    requires SameTable(envs, envs') && |envs'| == |envs| + 1
    requires envs'[|envs|].env == v && envs'[|envs|].flags == Flags(true, true, false, false)
    requires IsEnv(h.rec, v) && v in h.live && Discoverable(lay, h, ncells, v)
    ensures forall i {:trigger EnvTally(lay, h, ncells, walked + {v}, envs'[i])} | 0 <= i < |envs'| ::
              EnvTally(lay, h, ncells, walked + {v}, envs'[i])
  {
    forall i | 0 <= i < |envs'|
      ensures EnvTally(lay, h, ncells, walked + {v}, envs'[i])
    {
      if i < |envs| {
        assert EnvTally(lay, h, ncells, walked, envs[i]);
      }
    }
  }

  lemma UpsFresh(h: Heap, envs: seq<EnvNode>, walked: set<Node>, v: Node, envs': seq<EnvNode>)
    requires forall n: Node {:trigger UpTally(h, envs, Some(v), n)} ::
        n in walked && n < |h.rec| ==> UpTally(h, envs, Some(v), n)
    requires SameTable(envs, envs') && InTable(envs', v) && v < |h.rec|
    ensures forall n: Node {:trigger UpTally(h, envs', Up(h.rec[v]), n)} ::
              n in walked + {v} && n < |h.rec| ==> UpTally(h, envs', Up(h.rec[v]), n)
  {
    forall n: Node | n in walked + {v} && n < |h.rec|
      ensures UpTally(h, envs', Up(h.rec[v]), n)
    {
      if n != v {
        assert UpTally(h, envs, Some(v), n);
        if Up(h.rec[n]).Some? && InTable(envs, Up(h.rec[n]).value) {
          SameTableIn(envs, envs', Up(h.rec[n]).value);
        }
      }
    }
  }

  /** An environment met for the first time: what it owns is counted, its parent comes next. */
  lemma TallyFresh(lay: Layout, h: Heap, tokens: multiset<Node>, ncells: nat, done: nat, envs: seq<EnvNode>,
                   walked: set<Node>, counted: multiset<Node>, v: Node, envs': seq<EnvNode>)
    requires HeapInv(lay, h, {}, tokens)
    requires Tally(lay, h, ncells, done, envs, walked, counted, Some(v)) && !InTable(envs, v)
    requires SameTable(envs, envs') && |envs'| == |envs| + 1
    requires envs'[|envs|].env == v && envs'[|envs|].flags == Flags(true, true, false, false)
    ensures Tally(lay, h, ncells, done, envs', walked + {v}, counted + multiset{v} + multiset(Kids(h.rec[v])),
        Up(h.rec[v]))
    ensures v !in walked
  {
    var walked' := walked + {v};
    assert InTable(envs', v);
    assert NodeOk(lay, h, v);
    if Up(h.rec[v]).Some? {
      ParentOwed(lay, h, tokens, ncells, v);
    }
    EnvsFresh(lay, h, ncells, envs, walked, v, envs');
    UpsFresh(h, envs, walked, v, envs');
    forall n: Node | n < ncells
      ensures CellTally(lay, h, done, walked', n)
    {
      assert CellTally(lay, h, done, walked, n);
    }
    EdgesFresh(h, envs, walked, counted, v, envs');
    forall n | InTable(envs, n)
      ensures InTable(envs', n)
    {
      SameTableIn(envs, envs', n);
    }
  }

  lemma EdgesFresh(h: Heap, envs: seq<EnvNode>, walked: set<Node>, counted: multiset<Node>, v: Node,
      envs': seq<EnvNode>)
    requires v < |h.rec| == |h.out| && h.out[v] == Owned(h.rec[v]) && TypedNode(h.rec, h.rec[v]) && v !in walked
    requires forall n: Node {:trigger EdgeTally(h, envs, walked, counted, Some(v), n)} ::
        EdgeTally(h, envs, walked, counted, Some(v), n)
    requires SameTable(envs, envs') && InTable(envs', v)
    ensures forall n: Node {:trigger EdgeTally(h, envs', walked + {v},
        counted + multiset{v} + multiset(Kids(h.rec[v])), Up(h.rec[v]), n)} ::
              EdgeTally(h, envs', walked + {v}, counted + multiset{v} + multiset(Kids(h.rec[v])), Up(h.rec[v]), n)
  {
    forall n: Node
      ensures EdgeTally(h, envs', walked + {v}, counted + multiset{v} + multiset(Kids(h.rec[v])), Up(h.rec[v]), n)
    {
      if InTable(envs, n) {
        SameTableIn(envs, envs', n);
      }
      assert EdgeTally(h, envs, walked, counted, Some(v), n);
      assert EdgeTally(h, envs', walked, counted + multiset{v}, None, n);
      EdgeWalk(h, envs', walked, counted + multiset{v}, v, n);
    }
  }

  lemma TallyStart(lay: Layout, h: Heap, ncells: nat)
    requires ncells <= |h.rec| && forall n: Node | n < ncells :: h.rec[n].Cell?
    ensures Tally(lay, h, ncells, 0, [], {}, multiset{}, None)
  {
    forall n: Node
      ensures EdgeTally(h, [], {}, multiset{}, None, n)
    {
      InEdgesPositive(h.out, {}, n);
    }
  }

  /** A live cell has a positive count, a dead one does not. */
  lemma CountTellsLife(lay: Layout, h: Heap, tokens: multiset<Node>, n: Node)
    requires HeapInv(lay, h, {}, tokens) && n < |h.rec| && h.rec[n].Cell?
    ensures h.nref[n] > 0 <==> n in h.live
  {
    assert NodeOk(lay, h, n);
    assert n !in lay.immortal ==> Counted(h.out, h.nref, h.live, {}, tokens, n);
  }

  lemma TallySkip(lay: Layout, h: Heap, tokens: multiset<Node>, ncells: nat, ci: nat, envs: seq<EnvNode>,
                  walked: set<Node>, counted: multiset<Node>)
    requires HeapInv(lay, h, {}, tokens)
    requires Tally(lay, h, ncells, ci, envs, walked, counted, None) && ci < ncells
    requires h.nref[ci] <= 0 || ci in lay.immortal || !Walkable(h.rec[ci])
    ensures Tally(lay, h, ncells, ci + 1, envs, walked, counted, None)
  {
    CountTellsLife(lay, h, tokens, ci);
    var next := ci + 1;
    forall n: Node | n < ncells
      ensures CellTally(lay, h, next, walked, n)
    {
      assert CellTally(lay, h, ci, walked, n);
    }
  }

  lemma WalkedGrows(lay: Layout, h: Heap, ncells: nat, envs: seq<EnvNode>, walked: set<Node>, ci: Node)
    requires forall i {:trigger EnvTally(lay, h, ncells, walked, envs[i])} | 0 <= i < |envs| ::
        EnvTally(lay, h, ncells, walked, envs[i])
    requires forall n: Node {:trigger UpTally(h, envs, None, n)} ::
        n in walked && n < |h.rec| ==> UpTally(h, envs, None, n)
    requires ci < |h.rec|
    ensures forall i {:trigger EnvTally(lay, h, ncells, walked + {ci}, envs[i])} | 0 <= i < |envs| ::
              EnvTally(lay, h, ncells, walked + {ci}, envs[i])
    ensures forall n: Node {:trigger UpTally(h, envs, Up(h.rec[ci]), n)} ::
              n in walked + {ci} && n < |h.rec| ==> UpTally(h, envs, Up(h.rec[ci]), n)
  {
    forall i | 0 <= i < |envs|
      ensures EnvTally(lay, h, ncells, walked + {ci}, envs[i])
    {
      assert EnvTally(lay, h, ncells, walked, envs[i]);
    }
    forall n: Node | n in walked + {ci} && n < |h.rec|
      ensures UpTally(h, envs, Up(h.rec[ci]), n)
    {
      if n != ci {
        assert UpTally(h, envs, None, n);
      }
    }
  }

  /** A walkable cell: its cell references are counted, its captured environment comes next. */
  lemma CellsGrow(lay: Layout, h: Heap, ncells: nat, ci: nat, walked: set<Node>)
    requires ci < ncells <= |h.rec| && IsStart(lay, h, ci + 1, ci)
    requires forall n: Node {:trigger CellTally(lay, h, ci, walked, n)} ::
               n < ncells ==> CellTally(lay, h, ci, walked, n)
    ensures forall n: Node {:trigger CellTally(lay, h, ci + 1, walked + {ci}, n)} ::
              n < ncells ==> CellTally(lay, h, ci + 1, walked + {ci}, n)
  {
    var next := ci + 1;
    forall n: Node | n < ncells
      ensures CellTally(lay, h, next, walked + {ci}, n)
    {
      assert CellTally(lay, h, ci, walked, n);
    }
  }

  lemma TallyCell(lay: Layout, h: Heap, tokens: multiset<Node>, ncells: nat, ci: nat, envs: seq<EnvNode>,
                  walked: set<Node>, counted: multiset<Node>)
    requires HeapInv(lay, h, {}, tokens)
    requires Tally(lay, h, ncells, ci, envs, walked, counted, None) && ci < ncells
    requires h.nref[ci] > 0 && ci !in lay.immortal && Walkable(h.rec[ci])
    ensures Tally(lay, h, ncells, ci + 1, envs, walked + {ci}, counted + multiset(Kids(h.rec[ci])), Up(h.rec[ci]))
    ensures forall i | 0 <= i < |Kids(h.rec[ci])| :: !InTable(envs, Kids(h.rec[ci])[i])
  {
    CountTellsLife(lay, h, tokens, ci);
    assert NodeOk(lay, h, ci) && CellTally(lay, h, ci, walked, ci);
    KidsNotInTable(lay, h, tokens, ncells, envs, walked, ci, envs);
    var walked', counted' := walked + {ci}, counted + multiset(Kids(h.rec[ci]));
    if Up(h.rec[ci]).Some? {
      ParentOwed(lay, h, tokens, ncells, ci);
    }
    CellsGrow(lay, h, ncells, ci, walked);
    hide CellTally, Walkable;
    WalkedGrows(lay, h, ncells, envs, walked, ci);
    EdgesGrow(lay, h, tokens, envs, walked, counted, ci);
  }

  lemma EdgesGrow(lay: Layout, h: Heap, tokens: multiset<Node>, envs: seq<EnvNode>, walked: set<Node>,
                  counted: multiset<Node>, ci: Node)
    requires HeapInv(lay, h, {}, tokens) && ci < |h.rec| && ci !in walked
    requires forall n: Node {:trigger EdgeTally(h, envs, walked, counted, None, n)} ::
        EdgeTally(h, envs, walked, counted, None, n)
    ensures forall n: Node {:trigger EdgeTally(h, envs, walked + {ci}, counted + multiset(Kids(h.rec[ci])),
        Up(h.rec[ci]), n)} ::
              EdgeTally(h, envs, walked + {ci}, counted + multiset(Kids(h.rec[ci])), Up(h.rec[ci]), n)
  {
    assert NodeOk(lay, h, ci);
    forall n: Node
      ensures EdgeTally(h, envs, walked + {ci}, counted + multiset(Kids(h.rec[ci])), Up(h.rec[ci]), n)
    {
      assert EdgeTally(h, envs, walked, counted, None, n);
      EdgeWalk(h, envs, walked, counted, ci, n);
    }
  }

  /** `envs'` lists the same environments in the same order, with the same counts. */
  ghost predicate SameIds(envs: seq<EnvNode>, envs': seq<EnvNode>) {
    |envs'| == |envs| && forall i | 0 <= i < |envs| ::
        envs'[i].env == envs[i].env && envs'[i].interns == envs[i].interns
  }

  lemma SameIdsIn(envs: seq<EnvNode>, envs': seq<EnvNode>, v: Node)
    requires SameIds(envs, envs')
    ensures InTable(envs, v) <==> InTable(envs', v)
  {
    if InTable(envs, v) {
      var i :| 0 <= i < |envs| && envs[i].env == v;
      assert envs'[i].env == v;
    }
    if InTable(envs', v) {
      var i :| 0 <= i < |envs'| && envs'[i].env == v;
      assert envs[i].env == v;
    }
  }

  /** The dead environments from table position `ei` on. */
  ghost function TableFrom(dead: set<Node>, envs: seq<EnvNode>, ei: nat): set<Node>
    requires ei <= |envs|
  {
    set n | n in dead && InTable(envs[ei..], n)
  }

  lemma TableFromStep(dead: set<Node>, envs: seq<EnvNode>, ei: nat)
    requires ei < |envs| && Distinct(envs)
    ensures TableFrom(dead, envs, ei + 1) == TableFrom(dead, envs, ei) - {envs[ei].env}
  {
    forall n: Node
      ensures InTable(envs[ei..], n) <==> InTable(envs[ei + 1..], n) || n == envs[ei].env
    {
      if InTable(envs[ei..], n) {
        var i :| 0 <= i < |envs[ei..]| && envs[ei..][i].env == n;
        assert i > 0 ==> envs[ei + 1..][i - 1].env == n;
      }
      if InTable(envs[ei + 1..], n) {
        var i :| 0 <= i < |envs[ei + 1..]| && envs[ei + 1..][i].env == n;
        assert envs[ei..][i + 1].env == n;
      }
      assert envs[ei..][0] == envs[ei];
    }
    assert !InTable(envs[ei + 1..], envs[ei].env);
  }

  ghost function TableIds(envs: seq<EnvNode>): (ids: seq<Node>)
    ensures |ids| == |envs| && forall i | 0 <= i < |envs| :: ids[i] == envs[i].env
  {
    seq(|envs|, i requires 0 <= i < |envs| => envs[i].env)
  }

  /** Counting is over: the walked nodes are the candidates. */
  lemma TallyDone(lay: Layout, h: Heap, ncells: nat, envs: seq<EnvNode>, walked: set<Node>, counted: multiset<Node>)
    requires Tally(lay, h, ncells, ncells, envs, walked, counted, None)
    ensures Candidates(lay, h, ncells, walked)
    ensures forall n: Node {:trigger counted[n]} :: counted[n] == InEdges(h.out, walked, n)
    ensures forall n: Node | n >= ncells :: n in walked <==> InTable(envs, n)
  {
    forall n: Node | n < ncells
      ensures n in walked <==> IsStart(lay, h, ncells, n)
    {
      assert CellTally(lay, h, ncells, walked, n);
    }
    forall n | InTable(envs, n)
      ensures n in walked && IsEnv(h.rec, n) && n in h.live && Discoverable(lay, h, ncells, n)
    {
      var i :| 0 <= i < |envs| && envs[i].env == n;
      assert EnvTally(lay, h, ncells, walked, envs[i]);
    }
    forall n | n in walked && n < |h.rec| && Up(h.rec[n]).Some?
      ensures Up(h.rec[n]).value in walked
    {
      assert UpTally(h, envs, None, n);
    }
    forall n: Node
      ensures counted[n] == InEdges(h.out, walked, n)
    {
      assert EdgeTally(h, envs, walked, counted, None, n);
    }
  }
}
