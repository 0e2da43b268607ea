/**
 The table of per-error metadata (`errmeta_*`): open addressing with linear probing, tombstones for
 errors that were freed, and growth at seven tenths full.
 */
module ErrMeta {
  import opened Wrappers

  type Ptr = nat

  /** What is recorded about an error: where it was raised, and the calls on the stack then. */
  datatype Meta = Meta(line: int, col: int, trace: Option<seq<string>>)

  datatype Key = Empty | Tomb | Err(ptr: Ptr)
  datatype Slot = Slot(key: Key, meta: Meta)

  const NO_META := Meta(0, 0, None)
  const FREE := Slot(Empty, NO_META)
  const FIRST_CAP: nat := 64

  /** `errmeta_hash` reduced to the table: the capacity is a power of two, so the mask is a remainder. */
  function Home(p: Ptr, cap: nat): (h: nat)
    requires cap > 0
    ensures h < cap
  {
    ((p / 8 * 0x9E3779B97F4A7C15) % 0x1_0000_0000_0000_0000) % cap
  }

  /** The slot that is probed `k` steps after `home`. */
  function At(home: nat, k: nat, cap: nat): (i: nat)
    requires home < cap && k < cap
    ensures i < cap
  {
    if home + k < cap then home + k else home + k - cap
  }

  /** Steps from `home` to slot `i`. */
  function Steps(home: nat, i: nat, cap: nat): (k: nat)
    requires home < cap && i < cap
    ensures k < cap && At(home, k, cap) == i
    ensures forall m: nat | m < cap && At(home, m, cap) == i :: m == k
  {
    if home <= i then i - home else i + cap - home
  }

  /** No empty slot lies between a live key's home and its position. */
  predicate Reached(t: seq<Slot>, i: nat)
    requires i < |t|
  {
    t[i].key.Err? ==>
      var home := Home(t[i].key.ptr, |t|);
      forall m: nat {:trigger At(home, m, |t|)} | m < Steps(home, i, |t|) :: t[At(home, m, |t|)].key != Empty
  }

  predicate Distinct(t: seq<Slot>) {
    forall i, j | 0 <= i < j < |t| && t[i].key.Err? :: t[i].key != t[j].key
  }

  /** Slots that are not empty, among the first `n`. */
  function Filled(t: seq<Slot>, n: nat): nat
    requires n <= |t|
  {
    if n == 0 then 0 else Filled(t, n - 1) + (if t[n - 1].key == Empty then 0 else 1)
  }

  function Live(t: seq<Slot>, n: nat): nat
    requires n <= |t|
  {
    if n == 0 then 0 else Live(t, n - 1) + (if t[n - 1].key.Err? then 1 else 0)
  }

  /** The table holds exactly the entries of `m`. */
  ghost predicate Holds(t: seq<Slot>, m: map<Ptr, Meta>) {
    && (forall i {:trigger t[i]} | 0 <= i < |t| && t[i].key.Err? :: t[i].key.ptr in m && m[t[i].key.ptr] == t[i].meta)
    && (forall p {:trigger p in m} | p in m :: exists i :: 0 <= i < |t| && t[i].key == Err(p))
  }

  predicate CapOk(cap: nat) {
    cap == 0 || cap == FIRST_CAP || (cap > FIRST_CAP && cap % 2 == 0 && CapOk(cap / 2) && cap / 2 != 0)
  }

  /** Probing is sound: keys are unique and reached from their homes. */
  predicate Sound(t: seq<Slot>) {
    Distinct(t) && forall i: nat {:trigger Reached(t, i)} | i < |t| :: Reached(t, i)
  }

  // ---- counting ----

  lemma {:induction false} FilledSet(t: seq<Slot>, i: nat, s: Slot, n: nat)
    requires i < |t| && n <= |t|
    ensures Filled(t[i := s], n) == Filled(t, n) + (if i < n && s.key != Empty then 1
        else 0) - (if i < n && t[i].key != Empty then 1 else 0)
    ensures Live(t[i := s], n) == Live(t, n) + (if i < n && s.key.Err? then 1 else 0) - (if i < n && t[i].key.Err?
        then 1 else 0)
  {
    if n > 0 {
      FilledSet(t, i, s, n - 1);
    }
  }

  lemma {:induction false} SomeEmpty(t: seq<Slot>, n: nat) returns (i: nat)
    requires n <= |t| && Filled(t, n) < n
    ensures i < n && t[i].key == Empty
  {
    if t[n - 1].key == Empty {
      i := n - 1;
    } else {
      i := SomeEmpty(t, n - 1);
    }
  }

  lemma {:induction false} LiveFilled(t: seq<Slot>, n: nat)
    requires n <= |t|
    ensures Live(t, n) <= Filled(t, n) <= n
  {
    if n > 0 {
      LiveFilled(t, n - 1);
    }
  }

  lemma {:induction false} AllFree(t: seq<Slot>, n: nat)
    requires n <= |t| && forall i | 0 <= i < n :: t[i].key == Empty
    ensures Filled(t, n) == 0
  {
    if n > 0 {
      AllFree(t, n - 1);
    }
  }

  lemma FreshTable(t: seq<Slot>)
    requires forall i | 0 <= i < |t| :: t[i] == FREE
    ensures Sound(t) && Holds(t, map[]) && Filled(t, |t|) == Live(t, |t|) == 0
  {
    AllFree(t, |t|);
    LiveFilled(t, |t|);
  }

  lemma LiveNone(t: seq<Slot>)
    ensures Live(t, 0) == 0
  {
  }

  // ---- probing ----

  /** The first `k` slots probed for `p` are neither empty nor `p`'s. */
  predicate Missed(t: seq<Slot>, p: Ptr, k: nat)
    requires |t| > 0 && k <= |t|
  {
    var home := Home(p, |t|);
    forall m: nat {:trigger At(home, m, |t|)} | m < k ::
        t[At(home, m, |t|)].key != Empty && t[At(home, m, |t|)].key != Err(p)
  }

  /** An empty slot after only misses means that the key is nowhere. */
  lemma MissAll(t: seq<Slot>, p: Ptr, k: nat)
    requires |t| > 0 && k < |t| && Sound(t) && Missed(t, p, k) && t[At(Home(p, |t|), k, |t|)].key == Empty
    ensures forall i | 0 <= i < |t| :: t[i].key != Err(p)
  {
    var home := Home(p, |t|);
    forall i: nat | i < |t| ensures t[i].key != Err(p) {
      var s := Steps(home, i, |t|);
      assert Reached(t, i) && At(home, s, |t|) == i;
      assert s < k ==> t[At(home, s, |t|)].key != Err(p);
      assert t[i].key == Err(p) ==> s <= k;
    }
  }

  /** A probe that has only missed has not been round the table, if a slot is empty. */
  lemma MissBound(t: seq<Slot>, p: Ptr, k: nat)
    requires |t| > 0 && k <= |t| && Missed(t, p, k) && Filled(t, |t|) < |t|
    ensures k < |t|
  {
    var e := SomeEmpty(t, |t|);
    var home := Home(p, |t|);
    var s := Steps(home, e, |t|);
    assert At(home, s, |t|) == e;
  }

  /** Filling a slot that the probe for `p` has come to, empty or tombstone, keeps probing sound. */
  lemma FillSound(t: seq<Slot>, p: Ptr, k: nat, meta: Meta)
    requires |t| > 0 && k < |t| && Sound(t) && Missed(t, p, k) && !t[At(Home(p, |t|), k, |t|)].key.Err?
    requires forall i | 0 <= i < |t| :: t[i].key != Err(p)
    ensures Sound(t[At(Home(p, |t|), k, |t|) := Slot(Err(p), meta)])
  {
    var home := Home(p, |t|);
    var at := At(home, k, |t|);
    var u := t[at := Slot(Err(p), meta)];
    assert Steps(home, at, |t|) == k;
    forall i: nat | i < |u| ensures Reached(u, i) {
      if i != at {
        assert Reached(t, i);
        if t[i].key.Err? {
          var h := Home(t[i].key.ptr, |t|);
          forall m: nat | m < Steps(h, i, |t|) ensures u[At(h, m, |t|)].key != Empty {
            assert t[At(h, m, |t|)].key != Empty;
          }
        }
      }
    }
  }

  /** Changing what a slot says about its key, or leaving a tombstone, keeps probing sound. */
  lemma KeepSound(t: seq<Slot>, i: nat, s: Slot)
    requires i < |t| && Sound(t) && t[i].key != Empty && (s.key == t[i].key || s.key == Tomb)
    ensures Sound(t[i := s])
  {
    var u := t[i := s];
    forall j: nat | j < |u| ensures Reached(u, j) {
      assert Reached(t, j);
      if u[j].key.Err? {
        var h := Home(u[j].key.ptr, |t|);
        forall m: nat | m < Steps(h, j, |t|) ensures u[At(h, m, |t|)].key != Empty {
          assert t[At(h, m, |t|)].key != Empty;
        }
      }
    }
  }

  // ---- contents ----

  lemma HoldsSet(t: seq<Slot>, m: map<Ptr, Meta>, i: nat, p: Ptr, meta: Meta)
    requires i < |t| && Holds(t, m) && Distinct(t)
    requires t[i].key == Err(p) || (!t[i].key.Err? && forall j | 0 <= j < |t| :: t[j].key != Err(p))
    ensures Holds(t[i := Slot(Err(p), meta)], m[p := meta])
  {
    var u := t[i := Slot(Err(p), meta)];
    forall q | q in m[p := meta] ensures exists j :: 0 <= j < |u| && u[j].key == Err(q) {
      if q == p {
        assert u[i].key == Err(q);
      } else {
        var j :| 0 <= j < |t| && t[j].key == Err(q);
        assert u[j].key == Err(q);
      }
    }
  }

  lemma HoldsDrop(t: seq<Slot>, m: map<Ptr, Meta>, i: nat, p: Ptr, s: Slot)
    requires i < |t| && Holds(t, m) && Distinct(t) && t[i].key == Err(p) && s.key == Tomb
    ensures Holds(t[i := s], m - {p})
  {
    var u := t[i := s];
    forall q | q in m - {p} ensures exists j :: 0 <= j < |u| && u[j].key == Err(q) {
      var j :| 0 <= j < |t| && t[j].key == Err(q);
      assert u[j].key == Err(q);
    }
  }

  /** The entries of `m` that sit in the first `i` slots. */
  ghost function Upto(t: seq<Slot>, i: nat, m: map<Ptr, Meta>): map<Ptr, Meta>
    requires i <= |t|
  {
    map p | p in m && InFirst(t, i, p) :: m[p]
  }

  ghost predicate InFirst(t: seq<Slot>, i: nat, p: Ptr)
    requires i <= |t|
  {
    exists j :: 0 <= j < i && t[j].key == Err(p)
  }

  lemma UptoNext(t: seq<Slot>, i: nat, m: map<Ptr, Meta>)
    requires i < |t| && Holds(t, m) && Distinct(t)
    ensures Upto(t, i + 1, m) == if t[i].key.Err? then Upto(t, i, m)[t[i].key.ptr := t[i].meta] else Upto(t, i, m)
    ensures t[i].key.Err? ==> t[i].key.ptr !in Upto(t, i, m)
  {
    forall p | p in m ensures InFirst(t, i + 1, p) <==> (InFirst(t, i, p) || t[i].key == Err(p)) {
      if InFirst(t, i, p) {
        var j :| 0 <= j < i && t[j].key == Err(p);
        assert 0 <= j < i + 1 && t[j].key == Err(p);
      }
      if t[i].key == Err(p) {
        assert 0 <= i < i + 1 && t[i].key == Err(p);
      }
    }
  }

  lemma UptoAll(t: seq<Slot>, m: map<Ptr, Meta>)
    requires Holds(t, m)
    ensures Upto(t, |t|, m) == m && Upto(t, 0, m) == map[]
  {
    forall p | p in m ensures InFirst(t, |t|, p) {
      var j :| 0 <= j < |t| && t[j].key == Err(p);
    }
  }

  lemma CapNext(t: seq<Slot>)
    requires CapOk(|t|)
    ensures CapOk(if |t| == 0 then FIRST_CAP else 2 * |t|)
  {
    assert (2 * |t|) / 2 == |t| && (2 * |t|) % 2 == 0;
  }

  // ---- the table ----

  class Table {
    var tab: array<Slot>
    var used: nat
    ghost var contents: map<Ptr, Meta>

    ghost predicate Valid()
      reads this, tab
    {
      && CapOk(tab.Length)
      && used == Filled(tab[..], tab.Length) && used * 10 <= tab.Length * 7
      && Sound(tab[..]) && Holds(tab[..], contents)
    }

    constructor ()
      ensures Valid() && contents == map[] && fresh(tab)
    {
      tab := new Slot[0];
      used := 0;
      contents := map[];
    }

    /** `errmeta_find`: the error's slot, or -1. */
    method Find(err: Ptr) returns (at: int)
      requires Valid()
      ensures if err in contents then 0 <= at < tab.Length && tab[at].key == Err(err) && tab[at].meta == contents[err]
              else at == -1
    {
      if tab.Length == 0 {
        return -1;
      }
      var i := Home(err, tab.Length);
      ghost var t, k := tab[..], 0;
      MissBound(t, err, 0);
      while tab[i].key != Empty
        invariant k < tab.Length && i == At(Home(err, tab.Length), k, tab.Length)
        invariant Missed(t, err, k)
        decreases tab.Length - k
      {
        if tab[i].key == Err(err) {
          return i;
        }
        MissBound(t, err, k + 1);
        i, k := if i + 1 == tab.Length then 0 else i + 1, k + 1;
      }
      MissAll(t, err, k);
      return -1;
    }

    /** Probe for the error's own slot; failing that, the first tombstone or else the empty slot. */
    method Probe(err: Ptr) returns (at: nat, found: bool)
      requires Valid() && tab.Length > 0
      ensures at < tab.Length && found == (err in contents)
      ensures found ==> tab[at].key == Err(err)
      ensures !found ==> !tab[at].key.Err? && Sound(tab[..][at := Slot(Err(err), NO_META)])
    {
      ghost var t := tab[..];
      var i := Home(err, tab.Length);
      var tomb := -1;
      ghost var k, kt := 0, 0;
      MissBound(t, err, 0);
      while tab[i].key != Empty
        invariant k < tab.Length && i == At(Home(err, tab.Length), k, tab.Length)
        invariant Missed(t, err, k)
        invariant tomb >= 0 ==> kt < k && tomb == At(Home(err, tab.Length), kt, tab.Length) && tab[tomb].key == Tomb
        decreases tab.Length - k
      {
        if tab[i].key == Err(err) {
          return i, true;
        }
        if tab[i].key == Tomb && tomb < 0 {
          tomb, kt := i, k;
        }
        MissBound(t, err, k + 1);
        i, k := if i + 1 == tab.Length then 0 else i + 1, k + 1;
      }
      MissAll(t, err, k);
      found := false;
      if tomb >= 0 {
        at := tomb;
        FillSound(t, err, kt, NO_META);
      } else {
        at := i;
        FillSound(t, err, k, NO_META);
      }
    }
  
    /** Put a key that is not there into a table that holds no tombstones: probe for an empty slot. */
    static method Insert(nt: array<Slot>, s: Slot, ghost m: map<Ptr, Meta>)
      requires nt.Length > 0 && s.key.Err? && s.key.ptr !in m
      requires Sound(nt[..]) && Holds(nt[..], m) && Filled(nt[..], nt.Length) < nt.Length
      modifies nt
      ensures Sound(nt[..]) && Holds(nt[..], m[s.key.ptr := s.meta])
      ensures Filled(nt[..], nt.Length) == old(Filled(nt[..], nt.Length)) + 1
      ensures Live(nt[..], nt.Length) == old(Live(nt[..], nt.Length)) + 1
    {
      ghost var t, p, k := nt[..], s.key.ptr, 0;
      var j := Home(s.key.ptr, nt.Length);
      MissBound(t, p, 0);
      while nt[j].key != Empty
        invariant k < nt.Length && j == At(Home(p, nt.Length), k, nt.Length) && nt[..] == t
        invariant Missed(t, p, k)
        decreases nt.Length - k
      {
        MissBound(t, p, k + 1);
        j, k := if j + 1 == nt.Length then 0 else j + 1, k + 1;
      }
      MissAll(t, p, k);
      FillSound(t, p, k, s.meta);
      HoldsSet(t, m, j, p, s.meta);
      FilledSet(t, j, s, nt.Length);
      nt[j] := s;
      assert nt[..] == t[j := s];
    }

    /** Reinsert the live entries of one table into a bigger empty one. */
    static method CopyLive(old_: array<Slot>, nt: array<Slot>, ghost m: map<Ptr, Meta>) returns (live: nat)
      requires old_ != nt && old_.Length < nt.Length
      requires Distinct(old_[..]) && Holds(old_[..], m)
      requires forall i | 0 <= i < nt.Length :: nt[i] == FREE
      modifies nt
      ensures Sound(nt[..]) && Holds(nt[..], m)
      ensures live == Live(old_[..], old_.Length) == Filled(nt[..], nt.Length) == Live(nt[..], nt.Length)
    {
      hide Sound, Holds, Filled, Distinct;
      ghost var t := old_[..];
      FreshTable(nt[..]);
      UptoAll(t, m);
      LiveNone(t);
      live := 0;
      var i := 0;
      while i < old_.Length
        invariant i <= old_.Length && live == Live(t, i) <= i
        invariant Sound(nt[..]) && Holds(nt[..], Upto(t, i, m))
        invariant Filled(nt[..], nt.Length) == Live(nt[..], nt.Length) == live
      {
        UptoNext(t, i, m);
        if old_[i].key.Err? {
          Insert(nt, old_[i], Upto(t, i, m));
          live := live + 1;
        }
        i := i + 1;
      }
    }

    /** `errmeta_grow`: twice the slots (64 at first), and only the live entries.  It fails if there is no memory. */
    method Grow(memory: bool) returns (ok: bool)
      requires Valid()
      modifies this
      ensures Valid() && ok == memory && contents == old(contents)
      ensures !ok ==> tab == old(tab) && used == old(used)
      ensures ok ==> fresh(tab) && tab.Length == (if old(tab.Length) == 0 then FIRST_CAP else 2 * old(tab.Length))
      ensures ok ==> used == old(Live(tab[..], tab.Length)) == Live(tab[..], tab.Length)
    {
      if !memory {
        return false;
      }
      var nt := new Slot[if tab.Length == 0 then FIRST_CAP else 2 * tab.Length](_ => FREE);
      CapNext(tab[..]);
      LiveFilled(tab[..], tab.Length);
      var live := CopyLive(tab, nt, contents);
      tab, used, ok := nt, live, true;
    }

    /** `errmeta_record`: afterwards the error has exactly this metadata and every other entry is as it was.
        Without room and without memory nothing changes.  `stale` is the replaced trace, which is released. */
    method Record(err: Ptr, meta: Meta, memory: bool) returns (stale: Option<seq<string>>)
      requires Valid()
      modifies this, tab
      ensures Valid()
      ensures var room := old(tab.Length) > 0 && (old(used) + 1) * 10 <= old(tab.Length) * 7;
              contents == if room || memory then old(contents)[err := meta] else old(contents)
      ensures var room := old(tab.Length) > 0 && (old(used) + 1) * 10 <= old(tab.Length) * 7;
              stale == if (room || memory) && err in old(contents) then old(contents)[err].trace else None
    {
      stale := None;
      if tab.Length == 0 || (used + 1) * 10 > tab.Length * 7 {
        ghost var before := tab[..];
        LiveFilled(before, tab.Length);
        var ok := Grow(memory);
        if !ok {
          return;
        }
      }
      var at, found := Probe(err);
      stale := Put(at, found, err, meta);
    }

    /** Write the slot that probing found. */
    method Put(at: nat, found: bool, err: Ptr, meta: Meta) returns (stale: Option<seq<string>>)
      requires Valid() && at < tab.Length && found == (err in contents) && (used + 1) * 10 <= tab.Length * 7
      requires found ==> tab[at].key == Err(err)
      requires !found ==> !tab[at].key.Err? && Sound(tab[..][at := Slot(Err(err), NO_META)])
      modifies this, tab
      ensures Valid() && contents == old(contents)[err := meta] && tab == old(tab)
      ensures stale == if found then old(contents)[err].trace else None
    {
      ghost var t := tab[..];
      var s := Slot(Err(err), meta);
      HoldsSet(t, contents, at, err, meta);
      FilledSet(t, at, s, tab.Length);
      stale := None;
      if found {
        KeepSound(t, at, s);
        stale := tab[at].meta.trace;
      } else {
        MetaSound(t[at := Slot(Err(err), NO_META)], at, s);
        assert t[at := Slot(Err(err), NO_META)][at := s] == t[at := s];
        if tab[at].key == Empty {
          used := used + 1;
        }
      }
      tab[at] := s;
      assert tab[..] == t[at := s];
      contents := contents[err := meta];
    }

    /** `errmeta_set_loc`: a recorded error gets a more precise location and keeps its trace. */
    method SetLocation(err: Ptr, line: int, col: int)
      requires Valid()
      modifies this`contents, tab
      ensures Valid()
      ensures contents == if err in old(contents) then old(contents)[err := Meta(line, col, old(contents)[err].trace)]
          else old(contents)
    {
      var at := Find(err);
      if at >= 0 {
        ghost var t := tab[..];
        var meta := Meta(line, col, tab[at].meta.trace);
        HoldsSet(t, contents, at, err, meta);
        FilledSet(t, at, Slot(Err(err), meta), tab.Length);
        KeepSound(t, at, Slot(Err(err), meta));
        tab[at] := Slot(Err(err), meta);
        assert tab[..] == t[at := Slot(Err(err), meta)];
        contents := contents[err := meta];
      }
    }

    /** `errmeta_on_free`: the error's entry goes, its trace is released, and a tombstone stays. */
    method OnFree(err: Ptr) returns (released: Option<seq<string>>)
      requires Valid()
      modifies this`contents, tab
      ensures Valid() && contents == old(contents) - {err} && used == old(used)
      ensures released == if err in old(contents) then old(contents)[err].trace else None
    {
      released := None;
      var at := Find(err);
      if at >= 0 {
        ghost var t := tab[..];
        released := tab[at].meta.trace;
        var s := Slot(Tomb, tab[at].meta.(trace := None));
        HoldsDrop(t, contents, at, err, s);
        FilledSet(t, at, s, tab.Length);
        KeepSound(t, at, s);
        tab[at] := s;
        assert tab[..] == t[at := s];
        contents := contents - {err};
      } else {
        assert contents - {err} == contents;
      }
    }
  }

  lemma MetaSound(t: seq<Slot>, i: nat, s: Slot)
    requires i < |t| && Sound(t) && t[i].key == s.key && s.key.Err?
    ensures Sound(t[i := s])
  {
    KeepSound(t, i, s);
  }
}
