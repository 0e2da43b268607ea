/** The mutable heap and its release operations: `unrefexp`, `unrefexp_free`, `destroy_env`, `make_env`. */
module RefHeaps {
  import opened Wrappers
  import opened RefGraph
  import opened HeapModel

  class RefHeap {
    var rec: seq<Rec>
    var nref: seq<int>
    var freelist: seq<Node>
    var arenaSp: nat
    const layout: Layout
    ghost var live: set<Node>
    ghost var out: Adjacency

    ghost function State(): Heap
      reads this
    {
      Heap(rec, out, nref, live, freelist, arenaSp)
    }

    ghost predicate Inv(torn: set<Node>, tokens: multiset<Node>)
      reads this
    {
      HeapInv(layout, State(), torn, tokens)
    }

    /** `unrefexp`: drop one reference to cell `e`. */
    method Unref(e: Node, ghost torn: set<Node>, ghost tokens: multiset<Node>)
      requires Inv(torn, tokens + multiset{e}) && e < |rec| && rec[e].Cell?
      modifies this
      ensures Inv(torn, tokens)
      ensures OnlyReleased(torn, old(State()), State())
      ensures e !in layout.immortal ==> nref[e] < old(nref[e])
      decreases live - torn, 2
    {
      ghost var h := State();
      var dies := Decrement(e, torn, tokens);
      if dies {
        ghost var h1 := State();
        UnrefFree(e, torn, tokens);
        OnlyReleasedTrans(torn, h, h1, State());
        assert Released(torn, h1, State(), e);
      }
    }

    /** The counting half of `unrefexp`: immortals are skipped; `dies` when no reference is left. */
    method Decrement(e: Node, ghost torn: set<Node>, ghost tokens: multiset<Node>) returns (dies: bool)
      requires Inv(torn, tokens + multiset{e}) && e < |rec| && rec[e].Cell?
      modifies this`nref
      ensures OnlyReleased(torn, old(State()), State())
      ensures |nref| == |rec| && (e !in layout.immortal ==> nref[e] == old(nref[e]) - 1)
      ensures !dies ==> Inv(torn, tokens)
      ensures dies ==> e !in torn && e in live && nref[e] == 0
      ensures dies ==> Inv(torn + {e}, tokens + multiset(Owned(rec[e])))
    {
      ghost var h := State();
      ghost var all := tokens + multiset{e};
      TokenOk(layout, h, torn, all, e);
      if e in layout.immortal {
        StepImmortal(layout, h, torn, tokens, e);
        return false;
      }
      nref := nref[e := nref[e] - 1];
      if nref[e] > 0 {
        StepDecrement(layout, h, torn, tokens, e, State());
        return false;
      }
      StepBegin(layout, h, torn, all, e, State());
      assert all[e := 0] == tokens;
      return true;
    }

    /** Drop one reference to each cell of `s`. */
    method UnrefAll(s: seq<Node>, ghost torn: set<Node>, ghost tokens: multiset<Node>)
      requires Inv(torn, tokens + multiset(s))
      requires AreCells(rec, s)
      modifies this
      ensures Inv(torn, tokens)
      ensures OnlyReleased(torn, old(State()), State())
      ensures forall i | 0 <= i < |s| && s[i] !in layout.immortal :: s[i] < |nref| && nref[s[i]] < old(nref[s[i]])
      decreases live - torn, 3
    {
      var i := 0;
      assert s[0..] == s;
      while i < |s|
        invariant 0 <= i <= |s|
        invariant Inv(torn, tokens + multiset(s[i..]))
        invariant OnlyReleased(torn, old(State()), State())
        invariant AreCells(rec, s)
        invariant forall j | 0 <= j < i && s[j] !in layout.immortal :: s[j] < |nref| && nref[s[j]] < old(nref[s[j]])
      {
        assert s[i..] == [s[i]] + s[i + 1..];
        assert tokens + multiset(s[i..]) == (tokens + multiset(s[i + 1..])) + multiset{s[i]};
        ghost var h := State();
        Unref(s[i], torn, tokens + multiset(s[i + 1..]));
        OnlyReleasedTrans(torn, old(State()), h, State());
        AreCellsReleased(torn, h, State(), s);
        assert Released(torn, old(State()), h, s[i]);
        assert forall j | 0 <= j <= i :: s[j] < |rec| && Released(torn, h, State(), s[j]);
        i := i + 1;
      }
      assert s[i..] == [] && tokens + multiset(s[i..]) == tokens;
    }

    /** `unrefexp_free`: cell `e` has lost its last reference.  Release what it owns, push it on the
        free list, and go on with its chain successor. */
    method UnrefFree(e: Node, ghost torn: set<Node>, ghost tokens: multiset<Node>)
      requires e !in torn && e in live && e < |rec| && e < |nref| && rec[e].Cell? && nref[e] == 0
      requires Inv(torn + {e}, tokens + multiset(Owned(rec[e])))
      modifies this
      ensures Inv(torn, tokens)
      ensures OnlyReleased(torn, old(State()), State())
      decreases live - torn, 1
    {
      var cur := e;
      StepNone(layout, State(), torn + {e}, tokens + multiset(Owned(rec[e])));
      OnlyReleasedShrink(torn, torn + {e}, State(), State());
      while true
        invariant cur !in torn && cur in live && cur < |rec| && cur < |nref| && rec[cur].Cell? && nref[cur] == 0
        invariant Inv(torn + {cur}, tokens + multiset(Owned(rec[cur])))
        invariant OnlyReleased(torn, old(State()), State())
        decreases live - torn
      {
        ghost var h := State();
        var next := rec[cur].next;
        ReleasePayload(cur, torn, tokens);
        ghost var h1 := State();
        OnlyReleasedTrans(torn, old(State()), h, h1);
        assert cur in h.live - torn && cur !in live;
        assert live - torn < h.live - torn;
        assert tokens + multiset([]) == tokens;
        if next == None {
          return;
        }
        assert multiset(Opt(next)) == multiset{next.value};
        var dies := Decrement(next.value, torn, tokens);
        OnlyReleasedTrans(torn, old(State()), h1, State());
        if !dies {
          return;
        }
        cur := next.value;
      }
    }

    /** Dropping a reference ends environment `v`: it was the last one, or all others belong to its own closures,
        of which it knows. */
    ghost predicate Ends(h: Heap, torn: set<Node>, tokens: multiset<Node>, v: Node)
      requires IsEnv(h.rec, v) && v < |h.nref|
    {
      h.nref[v] == 1 || (h.rec[v].hasClosure && HeldByItself(h, torn, tokens, v))
    }

    /** `destroy_env`: drop one reference to environment `v` and, as long as that kills it, go on
        with its parent.  When only its own closures hold the rest, it dies, and they with it. */
    method DestroyEnv(v: Node, ghost torn: set<Node>, ghost tokens: multiset<Node>)
      requires Inv(torn, tokens + multiset{v}) && IsEnv(rec, v)
      modifies this
      ensures Inv(torn, tokens)
      ensures OnlyReleased(torn, old(State()), State())
      ensures IsEnv(old(rec), v) && v < |old(nref)| && (v !in live <==> Ends(old(State()), torn, tokens, v))
      ensures old(rec)[v].hasClosure && HeldByItself(old(State()), torn, tokens, v) ==>
                forall m: Node {:trigger Refers(old(State()), torn, m, v)} ::
                  Refers(old(State()), torn, m, v) ==> m !in live
      decreases live - torn, 1
    {
      var cur := v;
      ghost var first := true;
      StepNone(layout, State(), torn, tokens + multiset{v});
      TokenOk(layout, State(), torn, tokens + multiset{v}, v);
      while true
        invariant Inv(torn, tokens + multiset{cur}) && IsEnv(rec, cur)
        invariant OnlyReleased(torn, old(State()), State())
        invariant first ==> cur == v && State() == old(State())
        invariant !first ==> v !in live && Ends(old(State()), torn, tokens, v) && OwnGone(old(State()), torn, tokens, v)
        decreases live - torn
      {
        ghost var h0 := State();
        var parent := rec[cur].root;
        var dies := DropEnv(cur, torn, tokens);
        ghost var h1 := State();
        if !dies {
          OnlyReleasedTrans(torn, old(State()), h0, h1);
          return;
        }
        ReleaseEnv(cur, torn, tokens);
        CutThenReleased(layout, torn, tokens + multiset(Opt(parent)), cur, h0, h1, State());
        OnlyReleasedTrans(torn, old(State()), h0, State());
        if first {
          OwnEnd(h0, torn, tokens, tokens + multiset(Opt(parent)), v);
          first := false;
        }
        assert cur in h0.live - torn && cur !in live;
        assert tokens + multiset([]) == tokens;
        if parent == None {
          return;
        }
        assert multiset(Opt(parent)) == multiset{parent.value};
        cur := parent.value;
      }
    }

    /** The closures that alone held `v` are not alive. */
    ghost predicate OwnGone(h: Heap, torn: set<Node>, tokens: multiset<Node>, v: Node)
      requires IsEnv(h.rec, v)
      reads this
    {
      h.rec[v].hasClosure && HeldByItself(h, torn, tokens, v) ==>
        forall m: Node {:trigger Refers(h, torn, m, v)} :: Refers(h, torn, m, v) ==> m !in live
    }

    /** Once the bindings of `v` have been released, the closures that alone held it are gone. */
    lemma OwnEnd(h: Heap, torn: set<Node>, tokens: multiset<Node>, now: multiset<Node>, v: Node)
      requires HeapInv(layout, h, torn, tokens + multiset{v}) && IsEnv(h.rec, v) && v in h.live && v !in torn
      requires Inv(torn, now)
      requires forall i | 0 <= i < |Bindings(h.rec[v])| && Bindings(h.rec[v])[i] !in layout.immortal ::
                 var c := Bindings(h.rec[v])[i]; c < |nref| == |h.nref| && nref[c] < h.nref[c]
      ensures OwnGone(h, torn, tokens, v)
    {
      if HeldByItself(h, torn, tokens, v) {
        forall m: Node | Refers(h, torn, m, v) ensures m !in live {
          assert OwnClosure(h, torn, tokens, v, m);
          var i :| 0 <= i < |Bindings(h.rec[v])| && Bindings(h.rec[v])[i] == m;
          assert v != m;
          OwnClosureOnce(layout, h, torn, tokens + multiset{v}, v, m);
          NoneLeft(layout, State(), torn, now, m);
        }
      }
    }

    /** The first half of `unrefexp_free` for one cell: everything it owns except its chain
        successor is released and the cell is pushed on the free list. */
    method ReleasePayload(e: Node, ghost torn: set<Node>, ghost tokens: multiset<Node>)
      requires e !in torn && e in live && e < |rec| && e < |nref| && rec[e].Cell? && nref[e] == 0
      requires Inv(torn + {e}, tokens + multiset(Owned(rec[e])))
      modifies this
      ensures Inv(torn, tokens + multiset(Opt(old(rec[e].next))))
      ensures OnlyReleased(torn, old(State()), State())
      ensures e !in live
      ensures AreCells(rec, Opt(old(rec[e].next)))
      decreases live - torn, 0
    {
      var r := rec[e];
      ghost var h0 := State();
      ghost var rest := tokens + multiset(Opt(r.next));
      assert NodeOk(layout, h0, e);
      OwnedByCell(r, tokens);
      UnrefAll(r.pool, torn + {e}, rest + multiset(r.payload) + multiset(Opt(r.capture)));
      DestroyCapture(r.capture, torn + {e}, rest + multiset(r.payload), h0);
      ghost var h2 := State();
      AreCellsReleased(torn + {e}, h0, h2, r.payload);
      UnrefAll(r.payload, torn + {e}, rest);
      OnlyReleasedTrans(torn + {e}, h0, h2, State());
      assert Released(torn + {e}, h0, State(), e);
      PushFree(e, torn, rest, h0);
      AreCellsReleased(torn, h0, State(), Opt(r.next));
    }

    /** The captured environment, if any, loses the closure's reference. */
    method DestroyCapture(capture: Option<Node>, ghost torn: set<Node>, ghost tokens: multiset<Node>, ghost h0: Heap)
      requires Inv(torn, tokens + multiset(Opt(capture)))
      requires OnlyReleased(torn, h0, State())
      requires capture.Some? ==> IsEnv(h0.rec, capture.value)
      modifies this
      ensures Inv(torn, tokens)
      ensures OnlyReleased(torn, h0, State())
      decreases live - torn, 3
    {
      if capture.Some? {
        ghost var h1 := State();
        assert Released(torn, h0, h1, capture.value);
        assert multiset(Opt(capture)) == multiset{capture.value};
        DestroyEnv(capture.value, torn, tokens);
        OnlyReleasedTrans(torn, h0, h1, State());
      } else {
        assert tokens + multiset([]) == tokens;
      }
    }

    /** The cell goes to the head of the free list. */
    method PushFree(e: Node, ghost torn: set<Node>, ghost tokens: multiset<Node>, ghost h0: Heap)
      requires e !in torn && Inv(torn + {e}, tokens) && e < |rec| && rec[e].Cell?
      requires OnlyReleased(torn + {e}, h0, State()) && e < |h0.nref| && h0.nref[e] >= 0
      modifies this
      ensures Inv(torn, tokens)
      ensures OnlyReleased(torn, h0, State())
      ensures freelist == [e] + old(freelist) && live == old(live) - {e}
    {
      ghost var h := State();
      assert Released(torn + {e}, h0, h, e);
      FreeCell(e, torn + {e}, tokens);
      assert torn + {e} - {e} == torn;
      OnlyReleasedFreed(torn, h0, h, e, State());
    }

    // ---- environments ----

    /** The counting pass of `env_break_self_cycle` over the bindings `s` of `v`. */
    method CountSelf(s: seq<Node>, v: Node) returns (sole: bool, n: nat)
      requires AreCells(rec, s) && |rec| == |nref|
      ensures sole <==> SoleOwner(rec, nref, s, v, |s|)
      ensures sole ==> n == SelfRefs(rec, s, v, |s|)
    {
      n := 0;
      var i := 0;
      while i < |s|
        invariant 0 <= i <= |s|
        invariant SoleOwner(rec, nref, s, v, i) && n == SelfRefs(rec, s, v, i)
      {
        if IsSelfClosure(rec, s[i], v) {
          if nref[s[i]] != 1 {
            return false, n;
          }
          n := n + 1;
        }
        i := i + 1;
      }
      sole := true;
    }

    /** The severing pass: each closure among the bindings that captured `v` lets go of it, and
        those references become tokens. */
    method SeverSelf(v: Node, ghost torn: set<Node>, ghost tokens: multiset<Node>)
      requires Inv(torn, tokens) && IsEnv(rec, v) && v in live && v !in torn
      requires SoleOwner(rec, nref, Bindings(rec[v]), v, |Bindings(rec[v])|)
      modifies this`rec, this`out
      ensures IsEnv(old(rec), v) && CycleCut(layout, torn, v, old(State()), State())
      ensures Inv(torn, tokens[v := tokens[v] + SelfRefs(old(rec), Bindings(old(rec)[v]), v, |Bindings(old(rec)[v])|)])
    {
      ghost var h0 := State();
      var s := Bindings(rec[v]);
      var i := 0;
      CycleCutNone(layout, torn, v, h0);
      BindingsAreCells(layout, h0, torn, tokens, v);
      ghost var held := tokens[v];
      assert tokens[v := held] == tokens;
      while i < |s|
        invariant 0 <= i <= |s| && held == tokens[v] + SelfRefs(h0.rec, s, v, i)
        invariant Inv(torn, tokens[v := held]) && CycleCut(layout, torn, v, h0, State()) && nref == h0.nref
        invariant forall j | i <= j < |s| :: s[j] < |rec| == |h0.rec| && rec[s[j]] == h0.rec[s[j]]
      {
        if IsSelfClosure(rec, s[i], v) {
          ghost var h := State();
          var c := s[i];
          BoundOnce(layout, h0, torn, tokens, v, i, i);
          forall j | i < j < |s|
            ensures s[j] != c
          {
            BoundOnce(layout, h0, torn, tokens, v, i, j);
          }
          rec := rec[c := rec[c].(capture := None)];
          out := out[c := Owned(rec[c])];
          StepSever(layout, h, torn, tokens[v := held], c, v, State());
          assert tokens[v := held] + multiset{v} == tokens[v := held + 1];
          CycleCutOneMore(layout, torn, v, h0, h, c, State());
          held := held + 1;
        }
        i := i + 1;
      }
    }

    /** `env_break_self_cycle`: with `residual` references left on `v`, sever the captures of its own
        closures if they hold all of them and each closure belongs to `v` alone. */
    method BreakSelfCycle(v: Node, residual: int, ghost torn: set<Node>, ghost tokens: multiset<Node>)
        returns (ok: bool)
      requires Inv(torn, tokens) && IsEnv(rec, v) && v in live && v !in torn
      modifies this`rec, this`out
      ensures IsEnv(old(rec), v) && (ok <==> Breakable(old(rec), nref, v, residual))
      ensures !ok ==> State() == old(State())
      ensures ok ==> CycleCut(layout, torn, v, old(State()), State())
      ensures ok ==> Inv(torn, tokens[v := tokens[v] + residual])
    {
      BindingsAreCells(layout, State(), torn, tokens, v);
      var s := Bindings(rec[v]);
      var sole, selfRefs := CountSelf(s, v);
      if !sole || selfRefs == 0 || selfRefs != residual {
        return false;
      }
      SeverSelf(v, torn, tokens);
      ok := true;
    }

    /** Environment `v` still has references; it can go all the same if they are its own closures'. */
    method TryBreak(v: Node, ghost torn: set<Node>, ghost tokens: multiset<Node>) returns (broke: bool)
      requires Inv(torn, tokens) && IsEnv(rec, v) && v in live && v !in torn && v < |nref| && nref[v] > 0
      modifies this`rec, this`out
      ensures IsEnv(old(rec), v) && (broke <==> old(rec)[v].hasClosure && Breakable(old(rec), nref, v, nref[v]))
      ensures !broke ==> State() == old(State())
      ensures broke ==> CycleCut(layout, torn, v, old(State()), State())
      ensures broke ==> Inv(torn + {v}, tokens + multiset(Owned(rec[v])))
    {
      BindingsAreCells(layout, State(), torn, tokens, v);
      if !rec[v].hasClosure {
        return false;
      }
      broke := BreakSelfCycle(v, nref[v], torn, tokens);
      if broke {
        StepBroken(layout, State(), torn, tokens, v);
      }
    }

    /** Drop one reference to environment `v`; it dies when none is left, or when the only ones left
        belong to its own closures. */
    method DropEnv(v: Node, ghost torn: set<Node>, ghost tokens: multiset<Node>) returns (dies: bool)
      requires Inv(torn, tokens + multiset{v}) && IsEnv(rec, v)
      modifies this`nref, this`rec, this`out
      ensures IsEnv(old(rec), v) && v < |old(nref)| == |nref|
      ensures nref == old(nref)[v := old(nref)[v] - 1]
      ensures dies <==> nref[v] == 0 || (old(rec)[v].hasClosure && Breakable(old(rec), nref, v, nref[v]))
      ensures dies <==> Ends(old(State()), torn, tokens, v)
      ensures !dies ==> Inv(torn, tokens) && OnlyReleased(torn, old(State()), State())
      ensures dies ==> v !in torn && v in live && Inv(torn + {v}, tokens + multiset(Owned(old(rec[v]))))
      ensures dies ==> CycleCut(layout, torn, v, old(State()), State())
    {
      ghost var h := State();
      ghost var all := tokens + multiset{v};
      TokenOk(layout, h, torn, all, v);
      BindingsAreCells(layout, h, torn, all, v);
      nref := nref[v := nref[v] - 1];
      ghost var h1 := State();
      if nref[v] > 0 {
        StepDecrement(layout, h, torn, tokens, v, h1);
        BreakableExactly(layout, h1, torn, tokens, v);
        HeldSame(h, h1, torn, tokens, v);
        dies := TryBreak(v, torn, tokens);
      } else {
        StepBegin(layout, h, torn, all, v, h1);
        assert all[v := 0] == tokens;
        CycleCutNone(layout, torn, v, h1);
        dies := true;
      }
      if dies {
        CycleCutCounted(layout, torn, v, h, h1, State());
      }
    }

    /** The releasing half of `destroy_env` for one environment: everything it owns except its
        parent is released, the slot is scrubbed and, on top of the arena, handed back. */
    method ReleaseEnv(v: Node, ghost torn: set<Node>, ghost tokens: multiset<Node>)
      requires v !in torn && v in live && IsEnv(rec, v)
      requires Inv(torn + {v}, tokens + multiset(Owned(rec[v])))
      modifies this
      ensures IsEnv(old(rec), v) && Inv(torn, tokens + multiset(Opt(old(rec[v].root))))
      ensures OnlyReleased(torn, old(State()), State())
      ensures v !in live
      ensures old(rec[v].root).Some? ==> IsEnv(rec, old(rec[v].root).value)
      ensures forall i | 0 <= i < |Bindings(old(rec[v]))| && Bindings(old(rec[v]))[i] !in layout.immortal ::
                var c := Bindings(old(rec[v]))[i]; c < |nref| == |old(nref)| && nref[c] < old(nref)[c]
      decreases live - torn, 0
    {
      var r := rec[v];
      ghost var h0, torn1 := State(), torn + {v};
      ghost var rest := tokens + multiset(Opt(r.root));
      assert NodeOk(layout, h0, v);
      OwnedByEnv(rec, r, tokens);
      UnrefAll(Bindings(r), torn1, rest + multiset(Opt(r.caller)));
      ghost var h1 := State();
      AreCellsReleased(torn1, h0, h1, Opt(r.caller));
      UnrefAll(Opt(r.caller), torn1, rest);
      ghost var h2 := State();
      OnlyReleasedTrans(torn1, h0, h1, h2);
      assert forall i | 0 <= i < |Bindings(r)| :: Bindings(r)[i] < |rec| && Released(torn1, h1, h2, Bindings(r)[i]);
      assert Released(torn1, h0, h2, v);
      ScrubEnv(v, torn, rest, h0);
      assert r.root.Some? ==> Released(torn, h0, State(), r.root.value);
    }

    /** An environment slot is emptied; on top of the arena it is handed back.  (Unlike the
        collector, `destroy_env` leaves the stale count in the slot.) */
    method ScrubEnv(v: Node, ghost torn: set<Node>, ghost tokens: multiset<Node>, ghost h0: Heap)
      requires v !in torn && Inv(torn + {v}, tokens) && IsEnv(rec, v)
      requires OnlyReleased(torn + {v}, h0, State())
      modifies this
      ensures Inv(torn, tokens)
      ensures OnlyReleased(torn, h0, State())
      ensures rec == old(rec)[v := Emptied(old(rec)[v])] && live == old(live) - {v}
      ensures nref == old(nref) && freelist == old(freelist)
      ensures layout.lo <= v < layout.hi && v + 1 == old(arenaSp) ==> arenaSp == v
      ensures !(layout.lo <= v < layout.hi && v + 1 == old(arenaSp)) ==> arenaSp == old(arenaSp)
    {
      ghost var h := State();
      rec := rec[v := Emptied(rec[v])];
      out, live := out[v := []], live - {v};
      if layout.lo <= v < layout.hi && v + 1 == arenaSp {
        arenaSp := v;
      }
      StepFinishEnv(layout, h, torn + {v}, tokens, v, State());
      assert torn + {v} - {v} == torn;
      OnlyReleasedFreed(torn, h0, h, v, State());
    }

    /** `ref_env`: one more reference to `v`. */
    method RefEnv(v: Node, ghost torn: set<Node>, ghost tokens: multiset<Node>)
      requires Inv(torn, tokens) && IsEnv(rec, v) && v in live && v !in torn
      modifies this`nref
      ensures Inv(torn, tokens + multiset{v})
      ensures v < |old(nref)| && nref == old(nref)[v := old(nref)[v] + 1]
    {
      ghost var h := State();
      nref := nref[v := nref[v] + 1];
      Retain(out, h.nref, live, layout.immortal, torn, tokens, v);
      forall n: Node | n < |rec|
        ensures NodeOk(layout, State(), n)
      {
        assert NodeOk(layout, h, n);
      }
    }

    /** `make_env`: a fresh environment under `root`, from the arena as long as it has room.  The
        slot was dead, holds no binding left over from an earlier tenant, and is referred to by the
        caller only. */
    method MakeEnv(root: Option<Node>, ghost torn: set<Node>, ghost tokens: multiset<Node>) returns (e: Node)
      requires Inv(torn, tokens)
      requires root.Some? ==> IsEnv(rec, root.value) && root.value in live && root.value !in torn
      modifies this
      ensures Inv(torn, tokens + multiset{e})
      ensures e !in old(live) && live == old(live) + {e}
      ensures e < |rec| && rec[e] == Env([], [], None, root, false) && e < |nref| && nref[e] == 1
      ensures old(arenaSp) < layout.hi ==> e == old(arenaSp) && arenaSp == e + 1 && |rec| == |old(rec)|
      ensures old(arenaSp) >= layout.hi ==> e == |old(rec)| && arenaSp == old(arenaSp) && |rec| == e + 1
      ensures forall n: Node | n < |old(rec)| && n != e :: rec[n] == old(rec)[n]
      ensures forall n: Node | n < |old(nref)| && n < |nref| && n != e ::
                nref[n] == old(nref)[n] + (if root == Some(n) then 1 else 0)
      ensures freelist == old(freelist)
    {
      e := TakeSlot(torn, tokens);
      ghost var h := State();
      if root.Some? {
        nref := nref[root.value := nref[root.value] + 1];
      }
      rec, nref := rec[e := rec[e].(root := root)], nref[e := 1];
      out, live := out[e := Opt(root)], live + {e};
      StepMakeEnv(layout, h, torn, tokens, e, root, State());
    }

    /** A dead environment slot: the one at the bump pointer, or cleared memory. */
    method TakeSlot(ghost torn: set<Node>, ghost tokens: multiset<Node>) returns (e: Node)
      requires Inv(torn, tokens)
      modifies this`rec, this`nref, this`out, this`arenaSp
      ensures Inv(torn, tokens)
      ensures e < |rec| && rec[e] == Env([], [], None, None, false) && e !in live
      ensures layout.lo <= e < layout.hi ==> e < arenaSp
      ensures old(arenaSp) < layout.hi ==> e == old(arenaSp) && arenaSp == e + 1 && rec == old(rec) && nref == old(nref)
      ensures old(arenaSp) >= layout.hi ==> e == |old(rec)| && arenaSp == old(arenaSp)
                                            && rec == old(rec) + [rec[e]] && nref == old(nref) + [0]
    {
      ghost var h := State();
      if arenaSp < layout.hi {
        e := arenaSp;
        arenaSp := arenaSp + 1;
        assert NodeOk(layout, h, e);
        forall n: Node | n < |rec|
          ensures NodeOk(layout, State(), n)
        {
          assert NodeOk(layout, h, n);
        }
      } else {
        e := |rec|;
        rec, nref := rec + [Env([], [], None, None, false)], nref + [0];
        out := out + [[]];
        StepExtend(layout, h, torn, tokens, State());
        assert Consistent(out, nref, live, layout.immortal, torn, tokens);
      }
    }

    // ---- pieces the collector uses on nodes it tears down itself ----

    /** A dying closure forgets its captured environment. */
    method ForgetCapture(c: Node, ghost torn: set<Node>, ghost tokens: multiset<Node>)
      requires Inv(torn, tokens) && c in torn && c < |rec| && rec[c].Cell?
      modifies this`rec, this`out
      ensures Inv(torn, tokens)
      ensures rec == old(rec)[c := old(rec)[c].(capture := None)]
    {
      ghost var h := State();
      rec := rec[c := rec[c].(capture := None)];
      out := out[c := Kids(rec[c])];
      StepForget(layout, h, torn, tokens, c, State());
    }

    /** `gc_free_dead_cell`: the cell goes on the free list. */
    method FreeCell(c: Node, ghost torn: set<Node>, ghost tokens: multiset<Node>)
      requires Inv(torn, tokens) && c in torn && c < |rec| && rec[c].Cell? && c < |nref| && nref[c] >= 0
      modifies this
      ensures Inv(torn - {c}, tokens)
      ensures rec == old(rec)[c := Emptied(old(rec)[c])] && nref == old(nref)[c := 0] && live == old(live) - {c}
      ensures freelist == [c] + old(freelist)
    {
      ghost var h := State();
      rec, nref, freelist := rec[c := Emptied(rec[c])], nref[c := 0], [c] + freelist;
      out, live := out[c := []], live - {c};
      StepFinishCell(layout, h, torn, tokens, c, State());
    }

    /** `gc_free_dead_env`: the slot is scrubbed and, on top of the arena, handed back. */
    method FreeEnv(v: Node, ghost torn: set<Node>, ghost tokens: multiset<Node>)
      requires Inv(torn, tokens) && v in torn && IsEnv(rec, v) && v < |nref| && nref[v] >= 0
      modifies this
      ensures Inv(torn - {v}, tokens)
      ensures rec == old(rec)[v := Emptied(old(rec)[v])] && nref == old(nref)[v := 0] && live == old(live) - {v}
      ensures freelist == old(freelist)
      ensures layout.lo <= v < layout.hi && v + 1 == old(arenaSp) ==> arenaSp == v
      ensures !(layout.lo <= v < layout.hi && v + 1 == old(arenaSp)) ==> arenaSp == old(arenaSp)
    {
      ghost var h := State();
      rec, nref := rec[v := Emptied(rec[v])], nref[v := 0];
      out, live := out[v := []], live - {v};
      if layout.lo <= v < layout.hi && v + 1 == arenaSp {
        arenaSp := v;
      }
      StepFinishEnv(layout, h, torn, tokens, v, State());
    }
  }
}
