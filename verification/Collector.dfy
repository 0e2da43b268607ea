/** `gccyclescmd`: the on-demand cycle collector, phase by phase. */
module Collectors {
  import opened Wrappers
  import opened RefGraph
  import opened HeapModel
  import opened RefHeaps
  import opened CycleTheory
  import opened CollectorTally
  import opened SweepTheory

  class Collector {
    const heap: RefHeap
    const ncells: nat
    const interns: array<int>
    const state: array<Flags>
    const stack: array<Node>
    var sp: nat
    var estack: array<Node>
    var esp: nat
    var envs: seq<EnvNode>
    var envcap: nat
    /** Whether the environment table can be grown beyond a given capacity. */
    const canGrow: nat -> bool

    /** The zeroed side tables of a collection over the cells below `ncells`. */
    constructor (heap: RefHeap, ncells: nat, canGrow: nat -> bool)
      ensures this.heap == heap && this.ncells == ncells && this.canGrow == canGrow
      ensures fresh(interns) && fresh(state) && fresh(stack)
      ensures interns.Length == state.Length == stack.Length == ncells
      ensures interns[..] == seq(ncells, i => 0) && state[..] == seq(ncells, i => CLEAR)
      ensures sp == 0 && esp == 0 && envs == [] && envcap == 32 && fresh(estack) && stack != estack
    {
      this.heap, this.ncells, this.canGrow := heap, ncells, canGrow;
      interns := new int[ncells](i => 0);
      state := new Flags[ncells](i => CLEAR);
      stack := new Node[ncells](i => 0);
      estack := new Node[0];
      sp, esp, envs, envcap := 0, 0, [], 32;
    }

    /** `counted` lists every reference counted so far. */
    ghost predicate CountsMatch(counted: multiset<Node>)
      reads this`envs, interns
    {
      && (forall ci | 0 <= ci < interns.Length :: interns[ci] == counted[ci])
      && (forall ei | 0 <= ei < |envs| :: envs[ei].interns == counted[envs[ei].env])
      && Distinct(envs)
    }

    /** `gc_count_edge`, for each cell of `s`. */
    method CountKids(s: seq<Node>, ghost counted: multiset<Node>)
      requires CountsMatch(counted)
      requires forall i | 0 <= i < |s| :: !InTable(envs, s[i])
      modifies interns
      ensures CountsMatch(counted + multiset(s))
    {
      var i := 0;
      while i < |s|
        invariant 0 <= i <= |s|
        invariant CountsMatch(counted + multiset(s[..i]))
      {
        assert s[..i + 1] == s[..i] + [s[i]];
        if s[i] < interns.Length {
          interns[s[i]] := interns[s[i]] + 1;
        }
        i := i + 1;
      }
      assert s[..i] == s;
    }

    /** `gc_env_index`: linear search for `v`. */
    method EnvIndex(v: Node) returns (at: Option<nat>)
      ensures at.Some? ==> at.value < |envs| && envs[at.value].env == v
      ensures at.None? ==> !InTable(envs, v)
    {
      var i := 0;
      while i < |envs|
        invariant 0 <= i <= |envs|
        invariant forall j | 0 <= j < i :: envs[j].env != v
      {
        if envs[i].env == v {
          return Some(i);
        }
        i := i + 1;
      }
      return None;
    }

    /** `gc_env_add`: the table index of `v`, which is added if need be; `None` when the table
        cannot grow. */
    method EnvAdd(v: Node, ghost counted: multiset<Node>) returns (at: Option<nat>)
      requires CountsMatch(counted) && |envs| <= envcap
      requires !InTable(envs, v) ==> counted[v] == 0
      modifies this`envs, this`envcap
      ensures at.None? ==> envs == old(envs) && exists cap :: !canGrow(cap)
      ensures at.Some? ==> at.value < |envs| && envs[at.value].env == v && CountsMatch(counted)
      ensures at.Some? ==> envs == old(envs)
                           || (!InTable(old(envs), v) && envs == old(envs) + [EnvNode(v, 0, CLEAR.(live := true))])
      ensures |envs| <= envcap
    {
      at := EnvIndex(v);
      if at.Some? {
        return;
      }
      if |envs| == envcap {
        var cap := if envcap != 0 then envcap * 2 else 32;
        if !canGrow(cap) {
          return None;
        }
        envcap := cap;
      }
      envs := envs + [EnvNode(v, 0, CLEAR.(live := true))];
      at := Some(|envs| - 1);
    }

    ghost predicate Sized()
      reads this`envs, this`envcap
    {
      && interns.Length == state.Length == stack.Length == ncells
      && |envs| <= envcap
    }

    /** One round of that loop: `v` is registered and the reference to it counted; if it is new, the
        references it owns are counted and its parent is next. */
    method Meet(v: Node, ghost tokens: multiset<Node>, ghost done: nat, ghost walked: set<Node>,
        ghost counted: multiset<Node>)
      returns (ok: bool, next: Option<Node>, ghost walked': set<Node>, ghost counted': multiset<Node>)
      requires Sized() && heap.Inv({}, tokens)
      requires CountsMatch(counted) && Tally(heap.layout, heap.State(), ncells, done, envs, walked, counted, Some(v))
      modifies this`envs, this`envcap, interns
      ensures Sized() && (!ok ==> exists cap :: !canGrow(cap))
      ensures ok ==>
          CountsMatch(counted') && Tally(heap.layout, heap.State(), ncells, done, envs, walked', counted', next)
      ensures ok && next.Some? ==> v !in walked && walked' == walked + {v}
    {
      ghost var h, lay, envs0 := heap.State(), heap.layout, envs;
      next, walked', counted' := None, walked, counted + multiset{v};
      assert EdgeTally(h, envs, walked, counted, Some(v), v);
      assert forall i | 0 <= i < |envs| :: EnvTally(lay, h, ncells, walked, envs[i]);
      var isNew;
      ok, isNew := Register(v, counted);
      if ok && isNew {
        var r := heap.rec[v];
        TallyFresh(lay, h, tokens, ncells, done, envs0, walked, counted, v, envs);
        KidsNotInTable(lay, h, tokens, ncells, envs0, walked, v, envs);
        CountKids(Kids(r), counted + multiset{v});
        walked', counted' := walked + {v}, counted + multiset{v} + multiset(Kids(r));
        next := r.root;
      } else if ok {
        TallyKnown(lay, h, ncells, done, envs0, walked, counted, v, envs);
      }
    }

    /** Look `v` up, add it if need be, count one reference to it and flag it as walked; `isNew` if
        it was not flagged before. */
    method Register(v: Node, ghost counted: multiset<Node>) returns (ok: bool, isNew: bool)
      requires CountsMatch(counted) && |envs| <= envcap && interns.Length <= v
      requires !InTable(envs, v) ==> counted[v] == 0
      requires forall i | 0 <= i < |envs| :: envs[i].flags.walk
      modifies this`envs, this`envcap
      ensures |envs| <= envcap && (!ok ==> exists cap :: !canGrow(cap))
      ensures ok ==>
          CountsMatch(counted + multiset{v}) && SameTable(old(envs), envs) && (isNew <==> !InTable(old(envs), v))
      ensures ok ==> |envs| == |old(envs)| + (if isNew then 1 else 0)
      ensures ok && isNew ==> envs[|old(envs)|].env == v && envs[|old(envs)|].flags == Flags(true, true, false, false)
    {
      var at := EnvAdd(v, counted);
      if at == None {
        return false, false;
      }
      var node := envs[at.value];
      isNew := !node.flags.walk;
      assert at.value < |old(envs)| ==> node == old(envs)[at.value];
      assert !isNew ==> InTable(old(envs), v);
      envs := envs[at.value := EnvNode(v, node.interns + 1, node.flags.(walk := true))];
      ok := true;
    }

    /** The loop over a closure's captured environment and its parents: every environment is
        registered, each reference to one is counted, and the references an environment owns are
        counted the first time it is met. */
    method Discover(start: Option<Node>, ghost tokens: multiset<Node>, ghost done: nat, ghost walked0: set<Node>,
                    ghost counted0: multiset<Node>)
      returns (ok: bool, ghost walked: set<Node>, ghost counted: multiset<Node>)
      requires Sized() && heap.Inv({}, tokens)
      requires CountsMatch(counted0) && Tally(heap.layout, heap.State(), ncells, done, envs, walked0, counted0, start)
      modifies this`envs, this`envcap, interns
      ensures Sized() && (!ok ==> exists cap :: !canGrow(cap))
      ensures ok ==> CountsMatch(counted) && Tally(heap.layout, heap.State(), ncells, done, envs, walked, counted, None)
    {
      ghost var h := heap.State();
      ghost var lay := heap.layout;
      var v: Option<Node> := start;
      walked, counted := walked0, counted0;
      while v.Some?
        invariant Sized() && heap.State() == h
        invariant CountsMatch(counted) && Tally(lay, h, ncells, done, envs, walked, counted, v)
        decreases if v.Some? then 1 else 0, heap.live - walked
      {
        ok, v, walked, counted := Meet(v.value, tokens, done, walked, counted);
        if !ok {
          return;
        }
      }
      ok := true;
    }

    /** The state bits after the first `done` cells have been classified. */
    ghost predicate Classified(done: nat, walked: set<Node>)
      reads this`envs, this`envcap, state, heap
    {
      && Sized() && ncells <= |heap.nref|
      && forall ci | 0 <= ci < ncells ::
           state[ci] == if ci < done && heap.nref[ci] > 0 then Flags(true, ci in walked, false, false) else CLEAR
    }

    /** One cell: live cells are flagged, walkable ones walked. */
    method CountCell(ci: Node, ghost tokens: multiset<Node>, ghost walked: set<Node>, ghost counted: multiset<Node>)
      returns (ok: bool, ghost walked': set<Node>, ghost counted': multiset<Node>)
      requires heap.Inv({}, tokens) && ci < ncells && Sized() && ncells <= |heap.rec|
      requires CountsMatch(counted) && state[ci] == CLEAR
      requires Tally(heap.layout, heap.State(), ncells, ci, envs, walked, counted, None)
      modifies this`envs, this`envcap, interns, state
      ensures Sized() && (!ok ==> exists cap :: !canGrow(cap))
      ensures forall k | 0 <= k < ncells && k != ci :: state[k] == old(state[k])
      ensures ok ==> CountsMatch(counted')
      ensures ok ==> Tally(heap.layout, heap.State(), ncells, ci + 1, envs, walked', counted', None)
      ensures ok ==> state[ci] == if heap.nref[ci] > 0 then Flags(true, ci in walked', false, false) else CLEAR
    {
      ghost var h, lay := heap.State(), heap.layout;
      CountTellsLife(lay, h, tokens, ci);
      walked', counted' := walked, counted;
      if heap.nref[ci] <= 0 {
        TallySkip(lay, h, tokens, ncells, ci, envs, walked, counted);
        return true, walked, counted;
      }
      var p := heap.rec[ci];
      if ci in heap.layout.immortal || !Walkable(p) {
        state[ci] := Flags(true, false, false, false);
        TallySkip(lay, h, tokens, ncells, ci, envs, walked, counted);
        assert CellTally(lay, h, ci + 1, walked, ci);
        return true, walked, counted;
      }
      state[ci] := Flags(true, true, false, false);
      TallyCell(lay, h, tokens, ncells, ci, envs, walked, counted);
      CountKids(Kids(p), counted);
      ok, walked', counted' := Discover(p.capture, tokens, ci + 1, walked + {ci}, counted + multiset(Kids(p)));
      assert ok ==> CellTally(lay, h, ci + 1, walked', ci);
    }

    /** Phases 0 and 1: classify every cell, count the references the walkable ones and the
        environments they lead to own.  Fails when the environment table cannot grow. */
    method Count(ghost tokens: multiset<Node>) returns (ok: bool, ghost walked: set<Node>)
      requires heap.Inv({}, tokens) && ncells <= |heap.rec| && (forall n: Node | n < ncells :: heap.rec[n].Cell?)
      requires Classified(0, {}) && CountsMatch(multiset{}) && envs == []
      requires sp == 0 && esp == 0 && stack.Length == ncells && stack != estack
      modifies this`envs, this`envcap, interns, state
      ensures !ok ==> exists cap :: !canGrow(cap)
      ensures ok ==> Candidates(heap.layout, heap.State(), ncells, walked) && Ready(walked)
    {
      ghost var h, lay := heap.State(), heap.layout;
      ghost var counted: multiset<Node> := multiset{};
      walked := {};
      var ci: nat := 0;
      TallyStart(lay, h, ncells);
      while ci < ncells
        invariant ci <= ncells
        invariant CountsMatch(counted) && Tally(lay, h, ncells, ci, envs, walked, counted, None)
            && Classified(ci, walked)
      {
        ghost var walked0 := walked;
        ok, walked, counted := CountCell(ci, tokens, walked, counted);
        if !ok {
          return;
        }
        forall n: Node | n < ci
          ensures n in walked0 <==> n in walked
        {
          assert CellTally(lay, h, ci, walked0, n) && CellTally(lay, h, ci + 1, walked, n);
        }
        ci := ci + 1;
      }
      TallyDone(lay, h, ncells, envs, walked, counted);
      CountedReady(tokens, walked, counted);
      ok := true;
    }

    lemma CountedReady(tokens: multiset<Node>, cand: set<Node>, counted: multiset<Node>)
      requires heap.Inv({}, tokens) && Classified(ncells, cand) && CountsMatch(counted) && interns.Length == ncells
      requires Tally(heap.layout, heap.State(), ncells, ncells, envs, cand, counted, None)
      requires Candidates(heap.layout, heap.State(), ncells, cand)
      requires forall n: Node {:trigger counted[n]} :: counted[n] == InEdges(heap.out, cand, n)
      requires forall n: Node | n >= ncells :: n in cand <==> InTable(envs, n)
      requires sp == 0 && esp == 0 && stack.Length == ncells && stack != estack
      ensures Ready(cand)
    {
      forall ci: Node | ci < ncells
        ensures CellBits(cand, {}, ci)
      {
        assert ci in cand <==> IsStart(heap.layout, heap.State(), ncells, ci);
        CountTellsLife(heap.layout, heap.State(), tokens, ci);
      }
      forall ei: nat | ei < |envs|
        ensures EnvBits(cand, {}, ei)
      {
        assert EnvTally(heap.layout, heap.State(), ncells, cand, envs[ei]);
      }
    }

    // ---- phase 2: marking ----

    /** The state bits while marking: `cand` are the candidates, `marked` the marked nodes. */
    ghost predicate Bits(cand: set<Node>, marked: set<Node>)
      reads this`envs, this`envcap, state, heap
    {
      && Sized() && ncells <= |heap.nref| && Distinct(envs)
      && (forall ci: Node {:trigger CellBits(cand, marked, ci)} :: ci < ncells ==> CellBits(cand, marked, ci))
      && (forall ei: nat {:trigger EnvBits(cand, marked, ei)} :: ei < |envs| ==> EnvBits(cand, marked, ei))
    }

    ghost predicate CellBits(cand: set<Node>, marked: set<Node>, ci: Node)
      requires ci < state.Length && ci < |heap.nref|
      reads state, heap
    {
      state[ci] == Flags(heap.nref[ci] > 0, ci in cand, ci in marked, false) && (ci in cand ==> heap.nref[ci] > 0)
    }

    ghost predicate EnvBits(cand: set<Node>, marked: set<Node>, ei: nat)
      requires ei < |envs|
      reads this`envs
    {
      && envs[ei].flags == Flags(true, true, envs[ei].env in marked, false)
      && envs[ei].env >= ncells && envs[ei].env in cand
    }

    /** The two mark stacks hold the nodes of `gray`, each once: cells on one, environments on the
        other. */
    ghost predicate Stacks(gray: set<Node>)
      reads this`sp, this`esp, this`estack, stack, estack
    {
      && stack != estack && sp <= stack.Length && esp <= estack.Length
      && NoRepeats(stack[..sp]) && NoRepeats(estack[..esp])
      && (forall n {:trigger n in stack[..sp]} :: n in stack[..sp] <==> n in gray && n < ncells)
      && (forall n {:trigger n in estack[..esp]} :: n in estack[..esp] <==> n in gray && n >= ncells)
    }

    ghost predicate Tabled(cand: set<Node>)
      reads this`envs, this`estack
    {
      |envs| <= estack.Length && forall n | n in cand && n >= ncells :: InTable(envs, n)
    }

    /** Marking in progress; `cur` is the node whose references are being followed, if any. */
    ghost predicate Marking(cand: set<Node>, marked: set<Node>, onStack: set<Node>, cur: set<Node>)
      reads this`envs, this`envcap, this`sp, this`esp, this`estack, state, stack, estack, heap
    {
      Bits(cand, marked) && Stacks(onStack) && MarkInv(heap.State(), cand, marked, onStack + cur) && onStack !! cur
    }

    method FlagCell(n: Node, ghost cand: set<Node>, ghost marked: set<Node>)
      requires Bits(cand, marked) && n < ncells
      modifies state
      ensures Bits(cand, marked + {n})
    {
      state[n] := state[n].(mark := true);
      forall ci: Node | ci < ncells
        ensures CellBits(cand, marked + {n}, ci)
      {
        assert old(CellBits(cand, marked, ci));
      }
      forall ei: nat | ei < |envs|
        ensures EnvBits(cand, marked + {n}, ei)
      {
        assert EnvBits(cand, marked, ei);
      }
    }

    method FlagEnv(at: nat, ghost cand: set<Node>, ghost marked: set<Node>)
      requires Bits(cand, marked) && at < |envs|
      modifies this`envs
      ensures SameIds(old(envs), envs) && Bits(cand, marked + {envs[at].env})
    {
      envs := envs[at := envs[at].(flags := envs[at].flags.(mark := true))];
      ghost var n := envs[at].env;
      forall ci: Node | ci < ncells
        ensures CellBits(cand, marked + {n}, ci)
      {
        assert old(CellBits(cand, marked, ci));
        assert old(EnvBits(cand, marked, at));
      }
      forall ei: nat | ei < |envs|
        ensures EnvBits(cand, marked + {n}, ei)
      {
        assert old(EnvBits(cand, marked, ei));
      }
    }

    /** `gc_mark_edge`. */
    method MarkCell(child: Node, ghost cand: set<Node>, ghost marked: set<Node>, ghost onStack: set<Node>,
        ghost cur: set<Node>)
      returns (ghost marked': set<Node>, ghost onStack': set<Node>)
      requires Marking(cand, marked, onStack, cur)
      requires child in cand ==> Reachable(heap.out, Roots(heap.State(), cand), child)
      modifies state, stack, this`sp
      ensures Marking(cand, marked', onStack', cur)
      ensures marked <= marked' && cand * marked' - onStack' == cand * marked - onStack
      ensures child < ncells && child in cand ==> child in marked'
    {
      marked', onStack' := marked, onStack;
      if child >= ncells {
        return;
      }
      assert CellBits(cand, marked, child);
      if state[child].mark || !state[child].live {
        return;
      }
      MarkNode(heap.State(), cand, marked, onStack + cur, child);
      FlagCell(child, cand, marked);
      marked' := marked + {child};
      assert CellBits(cand, marked', child);
      if state[child].walk {
        PushCell(child, onStack);
        onStack' := onStack + {child};
        assert onStack' + cur == onStack + cur + {child};
      }
    }

    /** `gc_mark_edge` for each of `s`. */
    method MarkCells(s: seq<Node>, ghost cand: set<Node>, ghost marked: set<Node>, ghost onStack: set<Node>,
        ghost cur: set<Node>)
      returns (ghost marked': set<Node>, ghost onStack': set<Node>)
      requires Marking(cand, marked, onStack, cur)
      requires forall i | 0 <= i < |s| :: Reachable(heap.out, Roots(heap.State(), cand), s[i])
      modifies state, stack, this`sp
      ensures Marking(cand, marked', onStack', cur)
      ensures marked <= marked' && cand * marked' - onStack' == cand * marked - onStack
      ensures forall i | 0 <= i < |s| && s[i] < ncells && s[i] in cand :: s[i] in marked'
    {
      marked', onStack' := marked, onStack;
      var i := 0;
      while i < |s|
        invariant 0 <= i <= |s|
        invariant Marking(cand, marked', onStack', cur)
        invariant marked <= marked' && cand * marked' - onStack' == cand * marked - onStack
        invariant forall j | 0 <= j < i && s[j] < ncells && s[j] in cand :: s[j] in marked'
      {
        marked', onStack' := MarkCell(s[i], cand, marked', onStack', cur);
        i := i + 1;
      }
    }

    /** There is always room for one more cell. */
    method PushCell(n: Node, ghost onStack: set<Node>)
      requires Stacks(onStack) && n !in onStack && n < ncells == stack.Length
      modifies stack, this`sp
      ensures Stacks(onStack + {n})
    {
      RoomBelow(stack[..sp], ncells, n);
      stack[sp] := n;
      sp := sp + 1;
      assert stack[..sp] == old(stack[..sp]) + [n];
    }

    method PushEnv(v: Node, ghost onStack: set<Node>)
      requires Stacks(onStack) && v !in onStack && v >= ncells && InTable(envs, v) && |envs| <= estack.Length
      requires forall n | n in onStack && n >= ncells :: InTable(envs, n)
      modifies estack, this`esp
      ensures Stacks(onStack + {v})
    {
      RoomAmong(estack[..esp], TableIds(envs), v);
      estack[esp] := v;
      esp := esp + 1;
      assert estack[..esp] == old(estack[..esp]) + [v];
    }

    /** `gc_mark_env`. */
    method MarkEnv(v: Node, ghost cand: set<Node>, ghost marked: set<Node>, ghost onStack: set<Node>,
        ghost cur: set<Node>)
      returns (ghost marked': set<Node>, ghost onStack': set<Node>)
      requires Marking(cand, marked, onStack, cur) && Tabled(cand)
      requires v in cand ==> Reachable(heap.out, Roots(heap.State(), cand), v)
      modifies estack, this`envs, this`esp
      ensures Marking(cand, marked', onStack', cur) && Tabled(cand)
      ensures SameIds(old(envs), envs)
      ensures marked <= marked' && cand * marked' - onStack' == cand * marked - onStack
      ensures v in cand && v >= ncells ==> v in marked'
    {
      marked', onStack' := marked, onStack;
      var at := EnvIndex(v);
      if at == None {
        return;
      }
      assert EnvBits(cand, marked, at.value);
      if envs[at.value].flags.mark {
        return;
      }
      MarkNode(heap.State(), cand, marked, onStack + cur, v);
      FlagEnv(at.value, cand, marked);
      marked' := marked + {v};
      forall n | n in cand && n >= ncells
        ensures InTable(envs, n)
      {
        SameIdsIn(old(envs), envs, n);
      }
      assert EnvBits(cand, marked', at.value);
      if envs[at.value].flags.walk {
        PushEnv(v, onStack);
        onStack' := onStack + {v};
        assert onStack' + cur == onStack + cur + {v};
      }
    }

    /** Follow everything node `p`, just popped, refers to. */
    method Follow(p: Node, ghost tokens: multiset<Node>, ghost cand: set<Node>, ghost marked: set<Node>,
        ghost onStack: set<Node>)
      returns (ghost marked': set<Node>, ghost onStack': set<Node>)
      requires heap.Inv({}, tokens) && Candidates(heap.layout, heap.State(), ncells, cand)
      requires Marking(cand, marked, onStack, {p}) && Tabled(cand) && p in cand && p in marked
      modifies state, stack, estack, this`sp, this`esp, this`envs
      ensures Marking(cand, marked', onStack', {}) && Tabled(cand) && SameIds(old(envs), envs)
      ensures marked <= marked' && cand * marked' - onStack' == cand * marked - onStack
    {
      ghost var h := heap.State();
      FollowedReachable(heap.layout, h, tokens, ncells, cand, p);
      marked', onStack' := MarkCells(Kids(heap.rec[p]), cand, marked, onStack, {p});
      if Up(heap.rec[p]).Some? {
        marked', onStack' := MarkEnv(Up(heap.rec[p]).value, cand, marked', onStack', {p});
      }
      FollowedBlack(heap.layout, h, tokens, ncells, cand, marked', p);
      Blacken(h, cand, marked', onStack' + {p}, p);
      assert onStack' + {p} - {p} == onStack' + {};
    }

    /** The side tables hold, for each node, the references candidates own to it. */
    ghost predicate Interned(cand: set<Node>)
      reads this`envs, interns, heap
    {
      && (forall ci | 0 <= ci < interns.Length :: interns[ci] == InEdges(heap.out, cand, ci))
      && (forall ei | 0 <= ei < |envs| :: envs[ei].interns == InEdges(heap.out, cand, envs[ei].env))
    }

    /** The cell roots: immortals, unwalkable cells, and cells with a reference nobody counted. */
    method SeedCells(ghost tokens: multiset<Node>, ghost cand: set<Node>)
        returns (ghost marked: set<Node>, ghost onStack: set<Node>)
      requires heap.Inv({}, tokens) && Candidates(heap.layout, heap.State(), ncells, cand)
      requires Marking(cand, {}, {}, {}) && Interned(cand) && esp == 0
      modifies state, stack, this`sp
      ensures Marking(cand, marked, onStack, {})
      ensures forall n: Node | n < ncells && IsRoot(heap.State(), cand, n) :: n in marked
    {
      marked, onStack := {}, {};
      var ci: nat := 0;
      while ci < ncells
        invariant ci <= ncells && Marking(cand, marked, onStack, {})
        invariant forall n: Node | n < ci && IsRoot(heap.State(), cand, n) :: n in marked
      {
        assert CellBits(cand, marked, ci);
        if state[ci].live && !state[ci].mark {
          if ci in heap.layout.immortal || !state[ci].walk || heap.nref[ci] > interns[ci] {
            assert ci in cand ==> IsRoot(heap.State(), cand, ci);
            ReachableStartIf(heap.State(), cand, ci);
            marked, onStack := MarkCell(ci, cand, marked, onStack, {});
            assert CellBits(cand, marked, ci);
          }
        }
        ci := ci + 1;
      }
    }

    /** The environment roots. */
    method SeedEnvs(ghost tokens: multiset<Node>, ghost cand: set<Node>, ghost marked0: set<Node>,
        ghost onStack0: set<Node>)
      returns (ghost marked: set<Node>, ghost onStack: set<Node>)
      requires heap.Inv({}, tokens) && Candidates(heap.layout, heap.State(), ncells, cand)
      requires Marking(cand, marked0, onStack0, {}) && Tabled(cand) && Interned(cand)
      modifies estack, this`envs, this`esp
      ensures Marking(cand, marked, onStack, {}) && Tabled(cand) && SameIds(old(envs), envs)
      ensures marked0 <= marked
      ensures forall i | 0 <= i < |envs| :: IsRoot(heap.State(), cand, envs[i].env) ==> envs[i].env in marked
    {
      marked, onStack := marked0, onStack0;
      var ei: nat := 0;
      while ei < |envs|
        invariant ei <= |envs| && SameIds(old(envs), envs)
        invariant Marking(cand, marked, onStack, {}) && Tabled(cand) && Interned(cand)
        invariant marked0 <= marked
        invariant forall i | 0 <= i < ei :: IsRoot(heap.State(), cand, envs[i].env) ==> envs[i].env in marked
      {
        marked, onStack := SeedEnv(ei, tokens, cand, marked, onStack);
        ei := ei + 1;
      }
    }

    method SeedEnv(ei: nat, ghost tokens: multiset<Node>, ghost cand: set<Node>, ghost marked0: set<Node>,
        ghost onStack0: set<Node>)
      returns (ghost marked: set<Node>, ghost onStack: set<Node>)
      requires heap.Inv({}, tokens) && Candidates(heap.layout, heap.State(), ncells, cand) && ei < |envs|
      requires Marking(cand, marked0, onStack0, {}) && Tabled(cand) && Interned(cand)
      modifies estack, this`envs, this`esp
      ensures Marking(cand, marked, onStack, {}) && Tabled(cand) && SameIds(old(envs), envs)
      ensures marked0 <= marked && (IsRoot(heap.State(), cand, envs[ei].env) ==> envs[ei].env in marked)
    {
      marked, onStack := marked0, onStack0;
      var v := envs[ei].env;
      assert EnvBits(cand, marked, ei);
      if !envs[ei].flags.mark && heap.nref[v] > envs[ei].interns {
        assert IsRoot(heap.State(), cand, v);
        ReachableStartIf(heap.State(), cand, v);
        marked, onStack := MarkEnv(v, cand, marked, onStack, {});
      }
    }

    /** The finished candidates: marked, with every reference followed. */
    ghost function Finished(cand: set<Node>, marked: set<Node>, onStack: set<Node>): set<Node> {
      cand * marked - onStack
    }

    method PopCell(ghost tokens: multiset<Node>, ghost cand: set<Node>, ghost marked: set<Node>,
        ghost onStack: set<Node>)
      returns (ghost marked': set<Node>, ghost onStack': set<Node>)
      requires heap.Inv({}, tokens) && Candidates(heap.layout, heap.State(), ncells, cand)
      requires Marking(cand, marked, onStack, {}) && Tabled(cand) && sp > 0
      modifies state, stack, estack, this`sp, this`esp, this`envs
      ensures Marking(cand, marked', onStack', {}) && Tabled(cand) && SameIds(old(envs), envs)
      ensures marked <= marked' && Finished(cand, marked, onStack) < Finished(cand, marked', onStack') <= cand
    {
      var p := stack[sp - 1];
      Popped(stack[..sp], stack[..sp - 1], p);
      sp := sp - 1;
      assert onStack - {p} + {p} == onStack + {};
      marked', onStack' := Follow(p, tokens, cand, marked, onStack - {p});
      assert p in Finished(cand, marked', onStack') && p !in Finished(cand, marked, onStack);
    }

    method PopEnv(ghost tokens: multiset<Node>, ghost cand: set<Node>, ghost marked: set<Node>,
        ghost onStack: set<Node>)
      returns (ghost marked': set<Node>, ghost onStack': set<Node>)
      requires heap.Inv({}, tokens) && Candidates(heap.layout, heap.State(), ncells, cand)
      requires Marking(cand, marked, onStack, {}) && Tabled(cand) && esp > 0
      modifies state, stack, estack, this`sp, this`esp, this`envs
      ensures Marking(cand, marked', onStack', {}) && Tabled(cand) && SameIds(old(envs), envs)
      ensures marked <= marked' && Finished(cand, marked, onStack) < Finished(cand, marked', onStack') <= cand
    {
      var p := estack[esp - 1];
      Popped(estack[..esp], estack[..esp - 1], p);
      esp := esp - 1;
      assert onStack - {p} + {p} == onStack + {};
      marked', onStack' := Follow(p, tokens, cand, marked, onStack - {p});
      assert p in Finished(cand, marked', onStack') && p !in Finished(cand, marked, onStack);
    }

    /** The marking loop: the two domains alternate until both stacks are empty. */
    method Drain(ghost tokens: multiset<Node>, ghost cand: set<Node>, ghost marked0: set<Node>,
        ghost onStack0: set<Node>)
      returns (ghost marked: set<Node>)
      requires heap.Inv({}, tokens) && Candidates(heap.layout, heap.State(), ncells, cand)
      requires Marking(cand, marked0, onStack0, {}) && Tabled(cand)
      modifies state, stack, estack, this`sp, this`esp, this`envs
      ensures Marking(cand, marked, {}, {}) && marked0 <= marked && SameIds(old(envs), envs)
    {
      ghost var onStack := onStack0;
      marked := marked0;
      while sp > 0 || esp > 0
        invariant Marking(cand, marked, onStack, {}) && Tabled(cand) && SameIds(old(envs), envs)
        invariant marked0 <= marked
        decreases cand - Finished(cand, marked, onStack)
      {
        ghost var before := Finished(cand, marked, onStack);
        ghost var sp0 := sp;
        while sp > 0
          invariant Marking(cand, marked, onStack, {}) && Tabled(cand) && SameIds(old(envs), envs)
          invariant marked0 <= marked && before <= Finished(cand, marked, onStack)
          invariant before < Finished(cand, marked, onStack) || (sp == sp0 && (sp > 0 || esp > 0))
          decreases cand - Finished(cand, marked, onStack)
        {
          marked, onStack := PopCell(tokens, cand, marked, onStack);
        }
        while esp > 0
          invariant Marking(cand, marked, onStack, {}) && Tabled(cand) && SameIds(old(envs), envs)
          invariant marked0 <= marked && before <= Finished(cand, marked, onStack)
          invariant before < Finished(cand, marked, onStack) || esp > 0
          decreases cand - Finished(cand, marked, onStack)
        {
          marked, onStack := PopEnv(tokens, cand, marked, onStack);
        }
      }
      assert forall n | n in onStack :: n in stack[..0] || n in estack[..0];
      assert onStack == {};
    }

    // ---- phase 3: the sweep ----

    /** The dead bits name exactly the nodes of `dead`. */
    ghost predicate DeadBits(dead: set<Node>)
      reads this`envs, state
    {
      && state.Length == ncells && Distinct(envs)
      && (forall ci {:trigger state[ci]} | 0 <= ci < ncells :: state[ci].dead <==> ci in dead)
      && (forall ei {:trigger envs[ei]} | 0 <= ei < |envs| ::
        envs[ei].env >= ncells && (envs[ei].flags.dead <==> envs[ei].env in dead))
      && (forall n {:trigger n in dead} | n in dead && n >= ncells :: InTable(envs, n))
    }

    /** The dead nodes that are not cells of the arena are environments. */
    ghost predicate DeadEnvs(h0: Heap, dead: set<Node>) {
      && ncells <= |h0.rec| && (forall n: Node | n < ncells :: h0.rec[n].Cell?)
      && (forall n | n in dead && n >= ncells :: IsEnv(h0.rec, n))
    }

    /** `gc_release_edge` for each reference in `s`: those to dead nodes dissolve, the others are
        dropped. */
    method ReleaseEdges(s: seq<Node>, ghost h0: Heap, ghost tokens: multiset<Node>, ghost dead: set<Node>,
        ghost torn: set<Node>,
                        ghost intact: set<Node>, ghost kidOwners: set<Node>, ghost upOwners: set<Node>,
                            ghost pending0: multiset<Node>)
      returns (ghost pending: multiset<Node>)
      requires DeadBits(dead) && Pending(h0, dead, kidOwners, upOwners, s, pending0)
      requires heap.Inv(torn, tokens + pending0) && Swept(dead, torn, intact, h0, heap.State())
      requires AreCells(heap.rec, s) && DeadEnvs(h0, dead)
      modifies heap
      ensures Pending(h0, dead, kidOwners, upOwners, [], pending)
      ensures heap.Inv(torn, tokens + pending) && Swept(dead, torn, intact, h0, heap.State())
    {
      pending := pending0;
      var i := 0;
      assert s[0..] == s;
      while i < |s|
        invariant 0 <= i <= |s|
        invariant heap.Inv(torn, tokens + pending) && Swept(dead, torn, intact, h0, heap.State())
        invariant Pending(h0, dead, kidOwners, upOwners, s[i..], pending)
        invariant AreCells(heap.rec, s)
      {
        var x := s[i];
        DropExtra(h0, dead, kidOwners, upOwners, s[i..], pending, x, s[i + 1..]);
        if !(x < ncells && state[x].dead) {
          assert SweptAt(dead, torn, intact, h0, heap.State(), x);
          assert tokens + (pending - multiset{x}) + multiset{x} == tokens + pending;
          ghost var h := heap.State();
          heap.Unref(x, torn, tokens + (pending - multiset{x}));
          SweptTrans(dead, torn, intact, h0, h, heap.State());
          AreCellsReleased(torn, h, heap.State(), s);
          pending := pending - multiset{x};
        }
        i := i + 1;
      }
      assert s[i..] == [];
    }

    /** Dead node `n` drops its cell references. */
    method DropKids(n: Node, ghost h0: Heap, ghost tokens: multiset<Node>, ghost dead: set<Node>, ghost torn: set<Node>,
                    ghost intact: set<Node>, ghost kidOwners: set<Node>, ghost upOwners: set<Node>,
                        ghost pending0: multiset<Node>)
      returns (ghost pending: multiset<Node>)
      requires DeadBits(dead) && DeadEnvs(h0, dead) && Pending(h0, dead, kidOwners, upOwners, [], pending0)
      requires heap.Inv(torn, tokens + pending0) && Swept(dead, torn, intact, h0, heap.State())
      requires n in kidOwners && n in intact && n < |heap.rec|
      modifies heap
      ensures Pending(h0, dead, kidOwners - {n}, upOwners, [], pending)
      ensures heap.Inv(torn, tokens + pending) && Swept(dead, torn, intact, h0, heap.State())
    {
      TakeKids(h0, dead, kidOwners, upOwners, pending0, n);
      assert SweptAt(dead, torn, intact, h0, heap.State(), n);
      assert NodeOk(heap.layout, heap.State(), n);
      TypedKids(heap.rec, heap.rec[n]);
      pending := ReleaseEdges(Kids(heap.rec[n]), h0, tokens, dead, torn, intact, kidOwners - {n}, upOwners, pending0);
    }

    /** Dead node `n` drops its environment reference: to a dead environment it dissolves. */
    method DropUp(n: Node, ghost h0: Heap, ghost tokens: multiset<Node>, ghost dead: set<Node>, ghost torn: set<Node>,
                  ghost intact: set<Node>, ghost kidOwners: set<Node>, ghost upOwners: set<Node>,
                      ghost pending0: multiset<Node>)
      returns (ghost pending: multiset<Node>)
      requires DeadBits(dead) && DeadEnvs(h0, dead) && Pending(h0, dead, kidOwners, upOwners, [], pending0)
      requires heap.Inv(torn, tokens + pending0) && Swept(dead, torn, intact, h0, heap.State())
      requires n in upOwners && n in intact && n < |heap.rec|
      modifies heap
      ensures Pending(h0, dead, kidOwners, upOwners - {n}, [], pending)
      ensures heap.Inv(torn, tokens + pending) && Swept(dead, torn, intact, h0, heap.State())
    {
      pending := pending0;
      TakeUp(h0, dead, kidOwners, upOwners, pending0, n);
      assert SweptAt(dead, torn, intact, h0, heap.State(), n);
      assert NodeOk(heap.layout, heap.State(), n);
      var up := Up(heap.rec[n]);
      if up.Some? {
        var v := up.value;
        DropExtra(h0, dead, kidOwners, upOwners - {n}, [v], pending, v, []);
        var at := EnvIndex(v);
        if at == None || !envs[at.value].flags.dead {
          assert SweptAt(dead, torn, intact, h0, heap.State(), v);
          assert tokens + (pending - multiset{v}) + multiset{v} == tokens + pending;
          ghost var h := heap.State();
          heap.DestroyEnv(v, torn, tokens + (pending - multiset{v}));
          SweptTrans(dead, torn, intact, h0, h, heap.State());
          pending := pending - multiset{v};
        }
      }
    }

    /** First pass: dead cells drop their cell references. */
    method ReleaseCells(ghost h0: Heap, ghost tokens: multiset<Node>, ghost dead: set<Node>,
        ghost pending0: multiset<Node>)
      returns (ghost pending: multiset<Node>)
      requires DeadBits(dead) && DeadEnvs(h0, dead) && Pending(h0, dead, dead, dead, [], pending0)
      requires heap.Inv(dead, tokens + pending0) && Swept(dead, dead, dead, h0, heap.State())
      modifies heap
      ensures Pending(h0, dead, AtLeast(dead, ncells), dead, [], pending)
      ensures heap.Inv(dead, tokens + pending) && Swept(dead, dead, dead, h0, heap.State())
    {
      pending := pending0;
      ghost var kidOwners := dead;
      var c: nat := 0;
      while c < ncells
        invariant c <= ncells && kidOwners == AtLeast(dead, c)
        invariant Pending(h0, dead, kidOwners, dead, [], pending)
        invariant heap.Inv(dead, tokens + pending) && Swept(dead, dead, dead, h0, heap.State())
      {
        if state[c].dead {
          pending := DropKids(c, h0, tokens, dead, dead, dead, kidOwners, dead, pending);
          kidOwners := kidOwners - {c};
        }
        assert kidOwners == AtLeast(dead, c + 1);
        c := c + 1;
      }
    }

    /** Dead cell `c` drops the environment it captured and forgets it. */
    method DropCapture(c: Node, ghost h0: Heap, ghost tokens: multiset<Node>, ghost dead: set<Node>,
        ghost kidOwners: set<Node>,
                       ghost upOwners: set<Node>, ghost pending0: multiset<Node>)
      returns (ghost pending: multiset<Node>)
      requires DeadBits(dead) && DeadEnvs(h0, dead) && Pending(h0, dead, kidOwners, upOwners, [], pending0)
      requires heap.Inv(dead, tokens + pending0) && Swept(dead, dead, upOwners, h0, heap.State())
      requires c in upOwners && c < ncells
      modifies heap
      ensures Pending(h0, dead, kidOwners, upOwners - {c}, [], pending)
      ensures heap.Inv(dead, tokens + pending) && Swept(dead, dead, upOwners - {c}, h0, heap.State())
    {
      pending := DropUp(c, h0, tokens, dead, dead, upOwners, kidOwners, upOwners, pending0);
      ghost var h := heap.State();
      SweptShrink(dead, dead, upOwners, upOwners - {c}, h0, h);
      assert SweptAt(dead, dead, upOwners, h0, h, c);
      heap.ForgetCapture(c, dead, tokens + pending);
      SweptForget(dead, dead, upOwners - {c}, h0, h, c, heap.State());
    }

    /** Second pass: dead closures drop the environments they captured. */
    method ReleaseCaptures(ghost h0: Heap, ghost tokens: multiset<Node>, ghost dead: set<Node>,
        ghost pending0: multiset<Node>)
      returns (ghost pending: multiset<Node>)
      requires DeadBits(dead) && DeadEnvs(h0, dead) && Pending(h0, dead, AtLeast(dead, ncells), dead, [], pending0)
      requires heap.Inv(dead, tokens + pending0) && Swept(dead, dead, dead, h0, heap.State())
      modifies heap
      ensures Pending(h0, dead, AtLeast(dead, ncells), AtLeast(dead, ncells), [], pending)
      ensures heap.Inv(dead, tokens + pending) && Swept(dead, dead, AtLeast(dead, ncells), h0, heap.State())
    {
      pending := pending0;
      ghost var upOwners := dead;
      var c: nat := 0;
      while c < ncells
        invariant c <= ncells && upOwners == AtLeast(dead, c)
        invariant Pending(h0, dead, AtLeast(dead, ncells), upOwners, [], pending)
        invariant heap.Inv(dead, tokens + pending) && Swept(dead, dead, upOwners, h0, heap.State())
      {
        if state[c].dead {
          pending := DropCapture(c, h0, tokens, dead, AtLeast(dead, ncells), upOwners, pending);
          upOwners := upOwners - {c};
        }
        assert upOwners == AtLeast(dead, c + 1);
        c := c + 1;
      }
    }

    /** Third pass: dead environments drop their bindings. */
    method ReleaseEnvs(ghost h0: Heap, ghost tokens: multiset<Node>, ghost dead: set<Node>,
        ghost pending0: multiset<Node>)
      returns (ghost pending: multiset<Node>)
      requires DeadBits(dead) && DeadEnvs(h0, dead)
      requires Pending(h0, dead, AtLeast(dead, ncells), AtLeast(dead, ncells), [], pending0)
      requires heap.Inv(dead, tokens + pending0) && Swept(dead, dead, AtLeast(dead, ncells), h0, heap.State())
      modifies heap
      ensures Pending(h0, dead, {}, AtLeast(dead, ncells), [], pending)
      ensures heap.Inv(dead, tokens + pending) && Swept(dead, dead, AtLeast(dead, ncells), h0, heap.State())
    {
      pending := pending0;
      ghost var kidOwners, late := AtLeast(dead, ncells), AtLeast(dead, ncells);
      var ei: nat := 0;
      DeadTable(dead);
      while ei < |envs|
        invariant ei <= |envs| && kidOwners == TableFrom(dead, envs, ei)
        invariant Pending(h0, dead, kidOwners, late, [], pending)
        invariant heap.Inv(dead, tokens + pending) && Swept(dead, dead, late, h0, heap.State())
      {
        TableFromStep(dead, envs, ei);
        if envs[ei].flags.dead {
          DeadAt(dead, ei);
          pending := DropKids(envs[ei].env, h0, tokens, dead, dead, late, kidOwners, late, pending);
          kidOwners := kidOwners - {envs[ei].env};
        }
        ei := ei + 1;
      }
      assert envs[ei..] == [] && kidOwners == {};
    }

    lemma DeadTable(dead: set<Node>)
      requires DeadBits(dead)
      ensures TableFrom(dead, envs, 0) == AtLeast(dead, ncells)
    {
      assert envs[0..] == envs;
      forall n | n in dead && InTable(envs, n)
        ensures n >= ncells
      {
        var i :| 0 <= i < |envs| && envs[i].env == n;
      }
    }

    lemma DeadAt(dead: set<Node>, ei: nat)
      requires DeadBits(dead) && ei < |envs| && envs[ei].flags.dead
      ensures envs[ei].env in TableFrom(dead, envs, ei) && envs[ei].env in AtLeast(dead, ncells)
    {
      assert envs[ei..][0] == envs[ei];
    }

    /** Fourth pass: dead environments drop their parents and are freed. */
    method FreeEnvs(ghost h0: Heap, ghost tokens: multiset<Node>, ghost dead: set<Node>, ghost pending0: multiset<Node>)
      requires DeadBits(dead) && DeadEnvs(h0, dead)
      requires Pending(h0, dead, {}, AtLeast(dead, ncells), [], pending0)
      requires heap.Inv(dead, tokens + pending0) && Swept(dead, dead, AtLeast(dead, ncells), h0, heap.State())
      modifies heap
      ensures heap.Inv(Below(dead, ncells), tokens) && Swept(dead, Below(dead, ncells), {}, h0, heap.State())
    {
      ghost var pending, upOwners, torn := pending0, AtLeast(dead, ncells), dead;
      var ei: nat := 0;
      DeadTable(dead);
      assert dead == Below(dead, ncells) + upOwners;
      while ei < |envs|
        invariant ei <= |envs| && upOwners == TableFrom(dead, envs, ei) && torn == Below(dead, ncells) + upOwners
        invariant Pending(h0, dead, {}, upOwners, [], pending)
        invariant heap.Inv(torn, tokens + pending) && Swept(dead, torn, upOwners, h0, heap.State())
      {
        TableFromStep(dead, envs, ei);
        if envs[ei].flags.dead {
          DeadAt(dead, ei);
          pending := FreeDeadEnv(envs[ei].env, h0, tokens, dead, torn, upOwners, pending);
          torn, upOwners := torn - {envs[ei].env}, upOwners - {envs[ei].env};
        }
        ei := ei + 1;
      }
      assert envs[ei..] == [] && upOwners == {};
      PendingNone(h0, dead, pending);
      assert tokens + pending == tokens && torn == Below(dead, ncells);
    }

    method FreeDeadEnv(v: Node, ghost h0: Heap, ghost tokens: multiset<Node>, ghost dead: set<Node>,
        ghost torn: set<Node>,
                       ghost upOwners: set<Node>, ghost pending0: multiset<Node>)
      returns (ghost pending: multiset<Node>)
      requires DeadBits(dead) && DeadEnvs(h0, dead) && Pending(h0, dead, {}, upOwners, [], pending0)
      requires heap.Inv(torn, tokens + pending0) && Swept(dead, torn, upOwners, h0, heap.State())
      requires v in upOwners && v in dead && v >= ncells
      modifies heap
      ensures Pending(h0, dead, {}, upOwners - {v}, [], pending)
      ensures heap.Inv(torn - {v}, tokens + pending) && Swept(dead, torn - {v}, upOwners - {v}, h0, heap.State())
    {
      pending := DropUp(v, h0, tokens, dead, torn, upOwners, {}, upOwners, pending0);
      ghost var h := heap.State();
      SweptShrink(dead, torn, upOwners, upOwners - {v}, h0, h);
      assert SweptAt(dead, torn, upOwners, h0, h, v);
      heap.FreeEnv(v, torn, tokens + pending);
      SweptFreed(dead, torn, upOwners - {v}, h0, h, v, heap.State());
    }

    /** Last pass: dead cells are freed. */
    method FreeCells(ghost h0: Heap, ghost tokens: multiset<Node>, ghost dead: set<Node>) returns (freed: nat)
      requires DeadBits(dead) && DeadEnvs(h0, dead)
      requires heap.Inv(Below(dead, ncells), tokens) && Swept(dead, Below(dead, ncells), {}, h0, heap.State())
      modifies heap
      ensures heap.Inv({}, tokens) && Swept(dead, {}, {}, h0, heap.State())
      ensures freed == |Below(dead, ncells)|
    {
      freed := 0;
      ghost var torn := Below(dead, ncells);
      var c: nat := 0;
      assert Below(dead, 0) == {};
      while c < ncells
        invariant c <= ncells && torn == AtLeast(Below(dead, ncells), c)
        invariant heap.Inv(torn, tokens) && Swept(dead, torn, {}, h0, heap.State())
        invariant freed == |Below(dead, c)|
      {
        if state[c].dead {
          ghost var h := heap.State();
          assert SweptAt(dead, torn, {}, h0, h, c);
          heap.FreeCell(c, torn, tokens);
          SweptFreed(dead, torn, {}, h0, h, c, heap.State());
          torn := torn - {c};
          freed := freed + 1;
          assert Below(dead, c + 1) == Below(dead, c) + {c};
        } else {
          assert Below(dead, c + 1) == Below(dead, c);
        }
        assert torn == AtLeast(Below(dead, ncells), c + 1);
        c := c + 1;
      }
      assert torn == {};
    }

    /** A live, walkable, unmarked cell is dead. */
    method FlagDeadCells(ghost cand: set<Node>, ghost marked: set<Node>)
      requires Bits(cand, marked)
      modifies state
      ensures forall ci {:trigger state[ci]} | 0 <= ci < ncells :: state[ci].dead <==> ci in cand - marked
    {
      var c: nat := 0;
      while c < ncells
        invariant c <= ncells
        invariant forall k | 0 <= k < c :: state[k].dead <==> k in cand - marked
        invariant forall k | c <= k < ncells :: state[k] == old(state[k])
      {
        assert old(CellBits(cand, marked, c));
        if state[c].live && state[c].walk && !state[c].mark {
          state[c] := state[c].(dead := true);
        }
        c := c + 1;
      }
    }

    /** A live, walkable, unmarked environment is dead. */
    method FlagDeadEnvs(ghost cand: set<Node>, ghost marked: set<Node>)
      requires forall ei: nat {:trigger EnvBits(cand, marked, ei)} :: ei < |envs| ==> EnvBits(cand, marked, ei)
      modifies this`envs
      ensures SameIds(old(envs), envs)
      ensures forall ei {:trigger envs[ei]} | 0 <= ei < |envs| ::
                envs[ei].env >= ncells && (envs[ei].flags.dead <==> envs[ei].env in cand - marked)
    {
      var ei: nat := 0;
      while ei < |envs|
        invariant ei <= |envs| && SameIds(old(envs), envs)
        invariant forall k | 0 <= k < ei ::
            envs[k].env >= ncells && (envs[k].flags.dead <==> envs[k].env in cand - marked)
        invariant forall k | ei <= k < |envs| :: envs[k] == old(envs)[k]
      {
        assert old(EnvBits(cand, marked, ei));
        if envs[ei].flags.live && envs[ei].flags.walk && !envs[ei].flags.mark {
          envs := envs[ei := envs[ei].(flags := envs[ei].flags.(dead := true))];
        }
        ei := ei + 1;
      }
    }

    method FlagDead(ghost cand: set<Node>, ghost marked: set<Node>)
      requires Bits(cand, marked) && Tabled(cand)
      modifies state, this`envs
      ensures DeadBits(cand - marked)
    {
      FlagDeadCells(cand, marked);
      FlagDeadEnvs(cand, marked);
      forall n | n in cand - marked && n >= ncells
        ensures InTable(envs, n)
      {
        SameIdsIn(old(envs), envs, n);
      }
    }

    // ---- the whole collection ----

    /** What counting hands over: `cand` are the candidates, the side tables their counts. */
    ghost predicate Ready(cand: set<Node>)
      reads this`envs, this`envcap, this`sp, this`esp, this`estack, interns, state, stack, estack, heap
    {
      && Bits(cand, {}) && Interned(cand) && sp == 0 && esp == 0
      && stack.Length == ncells && stack != estack
      && (forall n | n in cand && n >= ncells :: InTable(envs, n))
    }

    /** Phase 2 as a whole; fails when the second mark stack cannot be allocated. */
    method Mark(estackOk: bool, ghost tokens: multiset<Node>, ghost cand: set<Node>)
        returns (ok: bool, ghost marked: set<Node>)
      requires heap.Inv({}, tokens) && Candidates(heap.layout, heap.State(), ncells, cand) && Ready(cand)
      modifies state, stack, this`sp, this`esp, this`envs, this`estack
      ensures ok == estackOk
      ensures ok ==> Bits(cand, marked) && Tabled(cand) && MarkedClosed(heap.State(), cand, marked)
      ensures ok ==> forall m | m in marked * cand :: Reachable(heap.out, Roots(heap.State(), cand), m)
    {
      ghost var onStack: set<Node>;
      assert MarkInv(heap.State(), cand, {}, {});
      marked, onStack := SeedCells(tokens, cand);
      if !estackOk {
        return false, marked;
      }
      assert forall n | n in onStack && n >= ncells :: n in estack[..esp];
      estack := new Node[if |envs| != 0 then |envs| else 1](i => 0);
      assert Stacks(onStack) && Tabled(cand);
      marked, onStack := SeedEnvs(tokens, cand, marked, onStack);
      forall n: Node | IsRoot(heap.State(), cand, n)
        ensures n in marked
      {
        if n >= ncells {
          var i :| 0 <= i < |envs| && envs[i].env == n;
        }
      }
      ghost var envs1 := envs;
      marked := Drain(tokens, cand, marked, onStack);
      forall n | n in cand && n >= ncells
        ensures InTable(envs, n)
      {
        SameIdsIn(envs1, envs, n);
      }
      ghost var none: set<Node> := {};
      assert none + none == none;
      MarkDone(heap.State(), cand, marked);
      ok := true;
    }

    /** Phase 3 as a whole: the unmarked candidates are freed, and nothing that can still be reached. */
    method Sweep(ghost tokens: multiset<Node>, ghost cand: set<Node>, ghost marked: set<Node>) returns (freed: nat)
      requires heap.Inv({}, tokens) && Candidates(heap.layout, heap.State(), ncells, cand)
      requires Bits(cand, marked) && Tabled(cand) && MarkedClosed(heap.State(), cand, marked)
      modifies state, this`envs, heap
      ensures heap.Inv({}, tokens) && OnlyReleased({}, old(heap.State()), heap.State())
      ensures (cand - marked) !! heap.live && freed == |Below(cand - marked, ncells)|
    {
      ghost var h0 := heap.State();
      ghost var dead := cand - marked;
      FlagDead(cand, marked);
      ghost var pending := SweepStart(heap.layout, h0, ncells, cand, marked, tokens);
      pending := ReleaseCells(h0, tokens, dead, pending);
      pending := ReleaseCaptures(h0, tokens, dead, pending);
      pending := ReleaseEnvs(h0, tokens, dead, pending);
      FreeEnvs(h0, tokens, dead, pending);
      freed := FreeCells(h0, tokens, dead);
      SweptDone(dead, h0, heap.State());
    }
  }

  /** The outcome of `(gc-cycles)`: how many cells were reclaimed, or an out-of-memory error. */
  datatype Outcome = Reclaimed(cells: nat) | OutOfMemory

  /** `gccyclescmd` on the arena of cells below `ncells`.  The three allocation parameters say which
      allocations succeed; without all of them nothing is freed.  Otherwise exactly the candidates
      that nothing outside leads to are reclaimed.  Whatever a held reference or an immortal leads
      to stays alive, no node changes but those that are released, and the count of every survivor
      again equals the references to it. */
  method CollectCycles(heap: RefHeap, ncells: nat, tablesOk: bool, canGrow: nat -> bool, estackOk: bool,
      ghost tokens: multiset<Node>)
    returns (result: Outcome, ghost abandoned: bool, ghost cand: set<Node>)
    requires heap.Inv({}, tokens) && ncells <= |heap.rec| && forall n: Node | n < ncells :: heap.rec[n].Cell?
    modifies heap
    ensures heap.Inv({}, tokens)
    ensures forall n: Node {:trigger Reachable(old(heap.out), KeptAlive(heap.layout, tokens), n)} ::
              Reachable(old(heap.out), KeptAlive(heap.layout, tokens), n) ==>
                n in heap.live && n < |heap.rec| == |old(heap.rec)| && heap.rec[n] == old(heap.rec)[n]
    ensures OnlyReleased({}, old(heap.State()), heap.State())
    ensures abandoned ==> heap.State() == old(heap.State()) && (result == Reclaimed(0) || result == OutOfMemory)
    ensures result.OutOfMemory? <==> !tablesOk && ncells > 0
    ensures !estackOk && ncells > 0 ==> abandoned
    ensures tablesOk && estackOk && (forall k :: canGrow(k)) ==> !abandoned
    ensures !abandoned ==> Candidates(heap.layout, old(heap.State()), ncells, cand)
    ensures !abandoned ==> forall n | n in cand
        && !Reachable(old(heap.out), Outside(old(heap.State()), cand, tokens), n) ::
                             n !in heap.live
    ensures !abandoned ==> result == Reclaimed(|Unreached(old(heap.State()), cand, tokens, ncells)|)
    ensures !abandoned ==> forall n {:trigger n in heap.live} ::
              Reclaimable(heap.layout, old(heap.State()), ncells, n)
              && !Reachable(old(heap.out), Beyond(heap.layout, old(heap.State()), ncells, tokens), n) ==>
                n !in heap.live
    ensures !abandoned ==> result == Reclaimed(|Garbage(heap.layout, old(heap.State()), ncells, tokens)|)
  {
    abandoned, cand := false, {};
    if ncells == 0 {
      assert Unreached(heap.State(), cand, tokens, ncells) == {};
      NoArena(heap.layout, heap.State(), tokens);
      Unmoved(heap, tokens);
      return Reclaimed(0), abandoned, cand;
    }
    if !tablesOk {
      Unmoved(heap, tokens);
      return OutOfMemory, true, cand;
    }
    var g := new Collector(heap, ncells, canGrow);
    var ok;
    ok, cand := g.Count(tokens);
    ghost var marked: set<Node>;
    if ok {
      ok, marked := g.Mark(estackOk, tokens, cand);
    }
    if !ok {
      Unmoved(heap, tokens);
      return Reclaimed(0), true, cand;
    }
    ghost var h := heap.State();
    var freed := g.Sweep(tokens, cand, marked);
    DeadUnreached(heap.layout, h, ncells, cand, marked, tokens);
    GarbageDead(heap.layout, h, ncells, cand, marked, tokens);
    forall n: Node | Reachable(h.out, KeptAlive(heap.layout, tokens), n)
      ensures n in heap.live && n < |heap.rec| == |h.rec| && heap.rec[n] == h.rec[n]
    {
      ReachableStays(heap.layout, h, heap.State(), tokens, n);
    }
    result := Reclaimed(freed);
  }

  lemma NoArena(lay: Layout, h: Heap, tokens: multiset<Node>)
    ensures Garbage(lay, h, 0, tokens) == {} && forall n: Node :: !Reclaimable(lay, h, 0, n)
  {
  }

  lemma Unmoved(heap: RefHeap, tokens: multiset<Node>)
    requires heap.Inv({}, tokens)
    ensures forall n: Node {:trigger Reachable(heap.out, KeptAlive(heap.layout, tokens), n)} ::
              Reachable(heap.out, KeptAlive(heap.layout, tokens), n) ==> n in heap.live && n < |heap.rec|
  {
    StepNone(heap.layout, heap.State(), {}, tokens);
    forall n: Node | Reachable(heap.out, KeptAlive(heap.layout, tokens), n)
      ensures n in heap.live && n < |heap.rec|
    {
      ReachableStays(heap.layout, heap.State(), heap.State(), tokens, n);
    }
  }

  lemma DeadUnreached(lay: Layout, h: Heap, ncells: nat, cand: set<Node>, marked: set<Node>, tokens: multiset<Node>)
    requires HeapInv(lay, h, {}, tokens) && Candidates(lay, h, ncells, cand) && MarkedClosed(h, cand, marked)
    requires forall m | m in marked * cand :: Reachable(h.out, Roots(h, cand), m)
    ensures Unreached(h, cand, tokens, ncells) == Below(cand - marked, ncells)
    ensures forall n | n in cand && !Reachable(h.out, Outside(h, cand, tokens), n) :: n in cand - marked
  {
    forall n | n in cand
      ensures n in marked <==> Reachable(h.out, Outside(h, cand, tokens), n)
    {
      DeadExactly(lay, h, ncells, cand, marked, tokens, n);
    }
  }

  lemma GarbageDead(lay: Layout, h: Heap, ncells: nat, cand: set<Node>, marked: set<Node>, tokens: multiset<Node>)
    requires HeapInv(lay, h, {}, tokens) && Candidates(lay, h, ncells, cand) && MarkedClosed(h, cand, marked)
    requires forall m | m in marked * cand :: Reachable(h.out, Roots(h, cand), m)
    ensures Garbage(lay, h, ncells, tokens) == Below(cand - marked, ncells)
    ensures forall n | Reclaimable(lay, h, ncells, n) && !Reachable(h.out, Beyond(lay, h, ncells, tokens), n) ::
              n in cand - marked
  {
    hide Reachable, Reclaimable, Beyond, Collectable;
    CandidatesAre(lay, h, ncells, cand, tokens);
    forall n | n in cand
      ensures n in marked <==> Reachable(h.out, Outside(h, cand, tokens), n)
    {
      DeadExactly(lay, h, ncells, cand, marked, tokens, n);
    }
    forall n: Node | n < ncells ensures n in cand <==> Collectable(lay, h, ncells, n) {
      CellIs(lay, h, ncells, cand, tokens, n);
    }
  }

  lemma CellIs(lay: Layout, h: Heap, ncells: nat, cand: set<Node>, tokens: multiset<Node>, n: Node)
    requires HeapInv(lay, h, {}, tokens) && Candidates(lay, h, ncells, cand) && n < ncells
    ensures n in cand <==> Collectable(lay, h, ncells, n)
    ensures n in cand ==> n in h.live
  {
  }

  /** The candidate cells that nothing outside leads to. */
  ghost function Unreached(h: Heap, cand: set<Node>, tokens: multiset<Node>, ncells: nat): set<Node> {
    set n | n in cand && n < ncells && !Reachable(h.out, Outside(h, cand, tokens), n)
  }
}
