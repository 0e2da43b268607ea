/**
 The chained hash table (`dict.h`): a table of buckets, nodes linked through their `next` field, and a
 rehash that relinks the same nodes into a table of twice the size.

 Nodes live in a store and are referred to by identity; a node's identity is what lookups return.
 */
module Dict {
  import opened Wrappers

  type Key = seq<bv8>
  type Val = nat
  type Id = nat

  datatype Node = Node(key: Key, val: Val, timestamp: int, next: Option<Id>)

  type Store = map<Id, Node>

  const INITIAL_SIZE: nat := 32
  const HALF_MAX: nat := 0x7FFF_FFFF

  /** `bernstein_hash_z`, in 32 bits. */
  function HashBv(key: Key, h: bv32): bv32 {
    if key == [] then h else HashBv(key[1..], (h + (h << 5)) ^ (key[0] as bv32))
  }

  function Hash(key: Key): nat {
    HashBv(key, 3102) as nat
  }

  /** The bucket of a key; sizes are powers of two, so the mask is a remainder. */
  function Bucket(key: Key, size: nat): (b: nat)
    requires size > 0
    ensures b < size
  {
    Hash(key) % size
  }

  predicate PowerOfTwo(n: nat) {
    n == 1 || (n > 1 && n % 2 == 0 && PowerOfTwo(n / 2))
  }

  // ---- chains ----

  function Head(c: seq<Id>): Option<Id> {
    if c == [] then None else Some(c[0])
  }

  /** Node `c[i]` exists and is linked to the one after it. */
  predicate Link(s: Store, c: seq<Id>, i: nat)
    requires i < |c|
  {
    c[i] in s && s[c[i]].next == (if i + 1 < |c| then Some(c[i + 1]) else None)
  }

  predicate Linked(s: Store, c: seq<Id>) {
    forall i: nat {:trigger Link(s, c, i)} | i < |c| :: Link(s, c, i)
  }

  predicate NoRepeat(c: seq<Id>) {
    forall i, j | 0 <= i < j < |c| :: c[i] != c[j]
  }

  /** The chain holds nodes of bucket `b`, each the node of its key. */
  predicate Sorted(s: Store, index: map<Key, Id>, c: seq<Id>, b: nat, size: nat)
    requires size > 0
  {
    forall i: nat {:trigger c[i]} | i < |c| ::
      c[i] in s && Bucket(s[c[i]].key, size) == b && s[c[i]].key in index && index[s[c[i]].key] == c[i]
  }

  ghost predicate ChainOk(heads: seq<Option<Id>>, s: Store, index: map<Key, Id>, chains: seq<seq<Id>>, b: nat)
    requires b < |heads| == |chains|
  {
    heads[b] == Head(chains[b]) && Linked(s, chains[b]) && NoRepeat(chains[b])
        && Sorted(s, index, chains[b], b, |heads|)
  }

  /** The key's node is in the key's chain. */
  predicate Indexed(s: Store, index: map<Key, Id>, chains: seq<seq<Id>>, key: Key)
    requires key in index && |chains| > 0
  {
    index[key] in s && s[index[key]].key == key && index[key] in chains[Bucket(key, |chains|)]
  }

  ghost predicate TableOk(heads: seq<Option<Id>>, s: Store, index: map<Key, Id>, chains: seq<seq<Id>>) {
    && |heads| == |chains|
    && (forall b: nat {:trigger ChainOk(heads, s, index, chains, b)} | b < |heads| ::
      ChainOk(heads, s, index, chains, b))
    && (|chains| > 0 ==> forall key {:trigger Indexed(s, index, chains, key)} | key in index ::
      Indexed(s, index, chains, key))
    && (|chains| == 0 ==> index == map[])
  }

  /** Two places that hold the same node are the same place. */
  lemma SamePlace(heads: seq<Option<Id>>, s: Store, index: map<Key, Id>, chains: seq<seq<Id>>, b: nat, i: nat, c: nat,
      j: nat)
    requires TableOk(heads, s, index, chains) && b < |chains| && c < |chains| && i < |chains[b]| && j < |chains[c]|
    requires chains[b][i] == chains[c][j]
    ensures b == c && i == j
  {
    assert ChainOk(heads, s, index, chains, b) && ChainOk(heads, s, index, chains, c);
  }

  // ---- one bucket changes ----

  /** Replacing one chain by another keeps the table, when the other chains' nodes are untouched. */
  lemma ChainReplaced(heads: seq<Option<Id>>, s: Store, index: map<Key, Id>, chains: seq<seq<Id>>,
                      s': Store, index': map<Key, Id>, b: nat, c: seq<Id>, key: Key)
    requires TableOk(heads, s, index, chains) && b < |heads| && b == Bucket(key, |heads|)
    requires forall id | id in s && id !in chains[b] :: id in s' && s'[id] == s[id]
    requires forall k | k != key :: (k in index <==> k in index') && (k in index ==> index'[k] == index[k])
    requires Linked(s', c) && NoRepeat(c) && Sorted(s', index', c, b, |heads|)
    requires forall k | k in index' && Bucket(k, |heads|) == b ::
        index'[k] in s' && s'[index'[k]].key == k && index'[k] in c
    ensures TableOk(heads[b := Head(c)], s', index', chains[b := c])
  {
    var heads', chains' := heads[b := Head(c)], chains[b := c];
    forall d: nat | d < |heads'| ensures ChainOk(heads', s', index', chains', d) {
      assert ChainOk(heads, s, index, chains, d) && ChainOk(heads, s, index, chains, b);
      if d != b {
        forall i: nat | i < |chains[d]| ensures Link(s', chains[d], i) && chains[d][i] !in chains[b] {
          assert Link(s, chains[d], i);
          NotElsewhere(heads, s, index, chains, d, i, b);
        }
        assert forall i: nat | i < |chains[d]| :: s[chains[d][i]].key != key;
      }
    }
    forall k | k in index' ensures Indexed(s', index', chains', k) {
      if Bucket(k, |heads|) != b {
        assert Indexed(s, index, chains, k);
        var d := Bucket(k, |heads|);
        var i :| 0 <= i < |chains[d]| && chains[d][i] == index[k];
        NotElsewhere(heads, s, index, chains, d, i, b);
      }
    }
  }

  lemma NotElsewhere(heads: seq<Option<Id>>, s: Store, index: map<Key, Id>, chains: seq<seq<Id>>, d: nat, i: nat,
      b: nat)
    requires TableOk(heads, s, index, chains) && b < |chains| && d < |chains| && i < |chains[d]| && d != b
    ensures chains[d][i] !in chains[b]
  {
    forall j | 0 <= j < |chains[b]| ensures chains[b][j] != chains[d][i] {
      if chains[b][j] == chains[d][i] {
        SamePlace(heads, s, index, chains, b, j, d, i);
      }
    }
  }

  function Total(chains: seq<seq<Id>>, n: nat): nat
    requires n <= |chains|
  {
    if n == 0 then 0 else Total(chains, n - 1) + |chains[n - 1]|
  }

  lemma {:induction false} TotalSet(chains: seq<seq<Id>>, b: nat, c: seq<Id>, n: nat)
    requires b < |chains| && n <= |chains|
    ensures Total(chains[b := c], n) == Total(chains, n) + (if b < n then |c| - |chains[b]| else 0)
  {
    if n > 0 {
      TotalSet(chains, b, c, n - 1);
    }
  }

  // ---- relinking ----

  /** The same node, links aside. */
  predicate SameNode(a: Node, b: Node) {
    a.key == b.key && a.val == b.val && a.timestamp == b.timestamp
  }

  /** Store `s` is `s0` with the nodes in `moved` linked into the new chains. */
  ghost predicate Relinked(heads: seq<Option<Id>>, s: Store, s0: Store, index: map<Key, Id>, chains: seq<seq<Id>>,
      moved: set<Id>) {
    && |heads| == |chains| > 0 && s.Keys == s0.Keys && moved <= s0.Keys
    && (forall b: nat {:trigger ChainOk(heads, s, index, chains, b)} | b < |heads| ::
      ChainOk(heads, s, index, chains, b))
    && (forall b: nat, i: nat {:trigger chains[b][i]} | b < |chains| && i < |chains[b]| :: chains[b][i] in moved)
    && (forall id {:trigger id in moved} | id in moved :: id in chains[Bucket(s0[id].key, |chains|)])
    && (forall id {:trigger s[id]} | id in s0 :: SameNode(s[id], s0[id]) && (id !in moved ==> s[id] == s0[id]))
  }

  /** Prepending a node to its chain. */
  lemma Prepended(s: Store, index: map<Key, Id>, c: seq<Id>, b: nat, size: nat, id: Id)
    requires size > 0 && Linked(s, c) && NoRepeat(c) && Sorted(s, index, c, b, size) && id !in c
    requires id in s && Bucket(s[id].key, size) == b && s[id].key in index && index[s[id].key] == id
    ensures var s' := s[id := s[id].(next := Head(c))];
            Linked(s', [id] + c) && NoRepeat([id] + c) && Sorted(s', index, [id] + c, b, size)
  {
    var s', c' := s[id := s[id].(next := Head(c))], [id] + c;
    forall i: nat | i < |c'| ensures Link(s', c', i) {
      if i > 0 {
        assert Link(s, c, i - 1);
      }
    }
  }

  /** A chain that does not hold the node is not affected. */
  lemma Untouched(s: Store, index: map<Key, Id>, c: seq<Id>, b: nat, size: nat, id: Id, node: Node)
    requires size > 0 && Linked(s, c) && Sorted(s, index, c, b, size) && id !in c
    ensures Linked(s[id := node], c) && Sorted(s[id := node], index, c, b, size)
  {
    var s' := s[id := node];
    forall i: nat | i < |c| ensures Link(s', c, i) {
      assert Link(s, c, i);
    }
  }

  lemma RelinkChain(heads: seq<Option<Id>>, s: Store, s0: Store, index: map<Key, Id>, chains: seq<seq<Id>>,
      moved: set<Id>, id: Id, d: nat)
    requires Relinked(heads, s, s0, index, chains, moved) && id in s0 && id !in moved && d < |heads|
    requires s0[id].key in index && index[s0[id].key] == id
    ensures var b := Bucket(s0[id].key, |heads|);
            ChainOk(heads[b := Some(id)], s[id := s[id].(next := heads[b])], index, chains[b := [id] + chains[b]], d)
  {
    hide Linked, NoRepeat, Sorted;
    var b := Bucket(s0[id].key, |heads|);
    assert ChainOk(heads, s, index, chains, d) && SameNode(s[id], s0[id]);
    assert id !in chains[d] by {
      forall i: nat | i < |chains[d]| ensures chains[d][i] != id {
        assert chains[d][i] in moved;
      }
    }
    if d == b {
      Prepended(s, index, chains[d], d, |heads|, id);
    } else {
      Untouched(s, index, chains[d], d, |heads|, id, s[id].(next := heads[b]));
    }
  }

  lemma RelinkOne(heads: seq<Option<Id>>, s: Store, s0: Store, index: map<Key, Id>, chains: seq<seq<Id>>,
      moved: set<Id>, id: Id)
    requires Relinked(heads, s, s0, index, chains, moved) && id in s0 && id !in moved
    requires s0[id].key in index && index[s0[id].key] == id
    ensures var b := Bucket(s0[id].key, |heads|);
            Relinked(heads[b := Some(id)], s[id := s[id].(next := heads[b])], s0, index,
                chains[b := [id] + chains[b]], moved + {id})
  {
    hide ChainOk;
    var b := Bucket(s0[id].key, |heads|);
    var heads', s', c := heads[b := Some(id)], s[id := s[id].(next := heads[b])], [id] + chains[b];
    var chains' := chains[b := c];
    forall d: nat | d < |heads| ensures ChainOk(heads', s', index, chains', d) {
      RelinkChain(heads, s, s0, index, chains, moved, id, d);
    }
    forall m | m in moved + {id} ensures m in chains'[Bucket(s0[m].key, |chains'|)] {
      if m == id {
        assert c[0] == id;
      } else {
        var d := Bucket(s0[m].key, |chains|);
        var i :| 0 <= i < |chains[d]| && chains[d][i] == m;
        assert chains'[d][if d == b then i + 1 else i] == m;
      }
    }
    forall d: nat, i: nat | d < |chains'| && i < |chains'[d]| ensures chains'[d][i] in moved + {id} {
      if d == b && i > 0 {
        assert chains[b][i - 1] in moved;
      }
    }
  }

  /** Is `id` in the first `j` chains, or in the first `i` places of chain `j`? */
  ghost predicate InPart(chains: seq<seq<Id>>, j: nat, i: nat, id: Id) {
    exists b: nat, k: nat :: b < |chains| && k < |chains[b]| && (b < j || (b == j && k < i)) && chains[b][k] == id
  }

  lemma PartStep(chains: seq<seq<Id>>, j: nat, i: nat, id: Id)
    requires j < |chains| && i < |chains[j]|
    ensures InPart(chains, j, i + 1, id) <==> InPart(chains, j, i, id) || id == chains[j][i]
  {
    if InPart(chains, j, i, id) {
      var b: nat, k: nat :| b < |chains| && k < |chains[b]| && (b < j || (b == j && k < i)) && chains[b][k] == id;
      assert b < j || (b == j && k < i + 1);
    }
    if id == chains[j][i] {
      assert j == j && i < i + 1 && chains[j][i] == id;
    }
  }

  lemma PartEnd(chains: seq<seq<Id>>, j: nat, id: Id)
    requires j < |chains|
    ensures InPart(chains, j + 1, 0, id) <==> InPart(chains, j, |chains[j]|, id)
  {
    if InPart(chains, j + 1, 0, id) {
      var b: nat, k: nat :| b < |chains| && k < |chains[b]| && (b < j + 1 || (b == j + 1 && k < 0))
          && chains[b][k] == id;
      assert b < j || (b == j && k < |chains[j]|);
    }
    if InPart(chains, j, |chains[j]|, id) {
      var b: nat, k: nat :| b < |chains| && k < |chains[b]| && (b < j || (b == j && k < |chains[j]|))
          && chains[b][k] == id;
      assert b < j + 1;
    }
  }

  /** The place that comes next has not been visited. */
  lemma PartNew(heads: seq<Option<Id>>, s: Store, index: map<Key, Id>, chains: seq<seq<Id>>, j: nat, i: nat)
    requires TableOk(heads, s, index, chains) && j < |chains| && i < |chains[j]|
    ensures !InPart(chains, j, i, chains[j][i])
    ensures var id := chains[j][i];
            id in s && s[id].key in index && index[s[id].key] == id && s[id].next == Head(chains[j][i + 1..])
  {
    assert ChainOk(heads, s, index, chains, j) && Link(s, chains[j], i);
    if InPart(chains, j, i, chains[j][i]) {
      var b: nat, k: nat :| b < |chains| && k < |chains[b]| && (b < j || (b == j && k < i))
          && chains[b][k] == chains[j][i];
      SamePlace(heads, s, index, chains, b, k, j, i);
    }
  }

  /** Once every node has moved, the new table is sound and holds the same nodes. */
  lemma RelinkDone(heads: seq<Option<Id>>, s0: Store, index: map<Key, Id>, chains: seq<seq<Id>>,
                   heads': seq<Option<Id>>, s: Store, chains': seq<seq<Id>>, moved: set<Id>)
    requires TableOk(heads, s0, index, chains) && |heads| > 0
    requires Relinked(heads', s, s0, index, chains', moved)
    requires forall id :: InPart(chains, |chains|, 0, id) ==> id in moved
    ensures TableOk(heads', s, index, chains')
  {
    forall key | key in index ensures Indexed(s, index, chains', key) {
      assert Indexed(s0, index, chains, key);
      var b := Bucket(key, |chains|);
      var i :| 0 <= i < |chains[b]| && chains[b][i] == index[key];
      assert b < |chains| && chains[b][i] == index[key];
      assert InPart(chains, |chains|, 0, index[key]);
      assert index[key] in moved;
      assert SameNode(s[index[key]], s0[index[key]]);
    }
  }

  ghost function ContentsOf(index: map<Key, Id>, s: Store): map<Key, (Val, int)> {
    map key | key in index && index[key] in s :: (s[index[key]].val, s[index[key]].timestamp)
  }

  lemma ContentsSame(index: map<Key, Id>, index': map<Key, Id>, s: Store, s': Store, key: Key)
    requires forall k | k in index && k != key :: k in index' && index'[k] == index[k]
    requires forall k | k in index' && k != key :: k in index
    requires forall k | k in index && k != key :: (index[k] in s <==> index[k] in s')
    requires forall k | k in index && k != key && index[k] in s' :: index[k] in s && SameNode(s'[index[k]], s[index[k]])
    ensures ContentsOf(index', s') - {key} == ContentsOf(index, s) - {key}
  {
  }

  /** Distinct keys have distinct nodes. */
  lemma NodesApart(heads: seq<Option<Id>>, s: Store, index: map<Key, Id>, chains: seq<seq<Id>>, k: Key, m: Key)
    requires TableOk(heads, s, index, chains) && k in index && m in index && k != m
    ensures index[k] != index[m] && index[k] in s && index[m] in s
  {
    assert Indexed(s, index, chains, k) && Indexed(s, index, chains, m);
  }

  // ---- the table ----

  class Table {
    var heads: array<Option<Id>>
    var store: Store
    var used: nat
    var top: nat
    ghost var chains: seq<seq<Id>>
    ghost var index: map<Key, Id>

    ghost predicate Sound()
      reads this, heads
    {
      && TableOk(heads[..], store, index, chains)
      && used == Total(chains, |chains|)
      && (forall id {:trigger id in store} | id in store :: id < top)
      && (heads.Length == 0 || (heads.Length >= INITIAL_SIZE && PowerOfTwo(heads.Length)))
    }

    /** Sound, and grown in time: below the cap there are fewer entries than buckets. */
    ghost predicate Valid()
      reads this, heads
    {
      Sound() && (0 < heads.Length < HALF_MAX ==> used < heads.Length)
    }

    /** The finite map that the table stands for: each key's value and timestamp. */
    ghost function Contents(): map<Key, (Val, int)>
      reads this
    {
      ContentsOf(index, store)
    }

    constructor ()
      ensures Valid() && index == map[] && fresh(heads)
    {
      heads := new Option<Id>[0];
      store, used, top, chains, index := map[], 0, 0, [], map[];
    }

    /** Walk a bucket's chain to the key's node, or else to the last one. */
    method Walk(b: nat, key: Key) returns (k: Option<Id>)
      requires Sound() && b < heads.Length && b == Bucket(key, heads.Length)
      ensures k.None? <==> chains[b] == []
      ensures k.Some? ==> k.value in store && k.value in chains[b]
      ensures key in index ==> k == Some(index[key])
      ensures key !in index && k.Some? ==> k.value == chains[b][|chains[b]| - 1] && store[k.value].key != key
    {
      assert ChainOk(heads[..], store, index, chains, b);
      ghost var c, i := chains[b], 0;
      if key in index {
        assert Indexed(store, index, chains, key);
      }
      k := heads[b];
      if k.None? {
        return;
      }
      assert Link(store, c, 0);
      while store[k.value].next.Some? && store[k.value].key != key
        invariant k.Some? && i < |c| && k.value == c[i] && Link(store, c, i)
        invariant forall j | 0 <= j < i :: store[c[j]].key != key
        decreases |c| - i
      {
        assert Link(store, c, i + 1);
        k, i := store[k.value].next, i + 1;
      }
    }

    /** Lookup: the node of the key, if it has one. */
    method Find(key: Key) returns (k: Option<Id>)
      requires Sound()
      ensures k == if key in index then Some(index[key]) else None
      ensures k.Some? ==> k.value in store && store[k.value].key == key
    {
      if heads.Length == 0 {
        return None;
      }
      var b := Bucket(key, heads.Length);
      k := Walk(b, key);
      if key in index {
        assert Indexed(store, index, chains, key);
      }
      if k.Some? && store[k.value].key != key {
        k := None;
      }
    }
  
    /** Relink one node into the new buckets. */
    method Relink(nh: array<Option<Id>>, id: Id, ghost s0: Store, ghost nchains: seq<seq<Id>>, ghost moved: set<Id>)
        returns (ghost nchains': seq<seq<Id>>)
      requires nh != heads && Relinked(nh[..], store, s0, index, nchains, moved)
      requires id in s0 && id !in moved && s0[id].key in index && index[s0[id].key] == id
      modifies nh, this`store
      ensures Relinked(nh[..], store, s0, index, nchains', moved + {id})
      ensures Total(nchains', |nchains'|) == Total(nchains, |nchains|) + 1
    {
      RelinkOne(nh[..], store, s0, index, nchains, moved, id);
      assert SameNode(store[id], s0[id]);
      var slot := Bucket(store[id].key, nh.Length);
      TotalSet(nchains, slot, [id] + nchains[slot], |nchains|);
      nchains' := nchains[slot := [id] + nchains[slot]];
      store := store[id := store[id].(next := nh[slot])];
      nh[slot] := Some(id);
    }

    /** Relink a whole chain, node by node from its head. */
    method RelinkBucket(nh: array<Option<Id>>, j: nat, ghost s0: Store, ghost nchains: seq<seq<Id>>,
        ghost moved: set<Id>)
        returns (ghost nchains': seq<seq<Id>>, ghost moved': set<Id>)
      requires nh != heads && TableOk(heads[..], s0, index, chains) && j < heads.Length
      requires Relinked(nh[..], store, s0, index, nchains, moved)
      requires forall id :: id in moved <==> InPart(chains, j, 0, id)
      modifies nh, this`store
      ensures Relinked(nh[..], store, s0, index, nchains', moved')
      ensures forall id :: id in moved' <==> InPart(chains, j + 1, 0, id)
      ensures Total(nchains', |nchains'|) == Total(nchains, |nchains|) + |chains[j]|
    {
      hide Relinked, InPart, Total;
      ghost var i := 0;
      nchains', moved' := nchains, moved;
      assert ChainOk(heads[..], s0, index, chains, j);
      hide ChainOk, TableOk;
      var k := heads[j];
      while k.Some?
        invariant i <= |chains[j]| && k == Head(chains[j][i..])
        invariant Relinked(nh[..], store, s0, index, nchains', moved')
        invariant forall id :: id in moved' <==> InPart(chains, j, i, id)
        invariant Total(nchains', |nchains'|) == Total(nchains, |nchains|) + i
        decreases |chains[j]| - i
      {
        PartNew(heads[..], s0, index, chains, j, i);
        RelinkedAt(nh[..], store, s0, index, nchains', moved', k.value);
        var next := store[k.value].next;
        nchains' := Relink(nh, k.value, s0, nchains', moved');
        forall id ensures InPart(chains, j, i + 1, id) <==> InPart(chains, j, i, id) || id == k.value {
          PartStep(chains, j, i, id);
        }
        moved' := moved' + {k.value};
        k, i := next, i + 1;
      }
      forall id ensures InPart(chains, j + 1, 0, id) <==> InPart(chains, j, i, id) {
        PartEnd(chains, j, id);
      }
    }

    /** `dict_rehash`: the same nodes, keys, values and timestamps, relinked into `size` buckets. */
    method Rehash(size: nat)
      requires Sound() && heads.Length > 0 && size >= INITIAL_SIZE && PowerOfTwo(size)
      modifies this
      ensures Sound() && fresh(heads) && heads.Length == size && index == old(index) && used == old(used)
      ensures store.Keys == old(store).Keys && forall id | id in store :: SameNode(store[id], old(store)[id])
    {
      var nh := new Option<Id>[size](_ => None);
      ghost var s0 := store;
      ghost var nchains: seq<seq<Id>> := seq(size, _ => []);
      ghost var moved: set<Id> := {};
      RelinkNone(nh[..], store, index, nchains);
      TotalNone(nchains, size);
      var j := 0;
      while j < heads.Length
        invariant j <= heads.Length && Relinked(nh[..], store, s0, index, nchains, moved)
        invariant forall id :: id in moved <==> InPart(chains, j, 0, id)
        invariant |nchains| == size && Total(nchains, size) == Total(chains, j)
        modifies nh, this`store
      {
        nchains, moved := RelinkBucket(nh, j, s0, nchains, moved);
        j := j + 1;
      }
      RelinkDone(heads[..], s0, index, chains, nh[..], store, nchains, moved);
      heads, chains := nh, nchains;
    }

    /** `set_get_keyval_dict` with a value: afterwards the key has this value, in the node returned; a new
        node goes to the end of its chain, an old one keeps its timestamp and releases its value. */
    method Set(key: Key, val: Val) returns (id: Id, released: Option<Val>)
      requires Valid()
      modifies this, heads
      ensures Valid() && (heads == old(heads) || fresh(heads))
      ensures index == old(index)[key := id] && (key in old(index) ==> id == old(index)[key])
      ensures key !in old(index) ==> id !in old(store) && used == old(used) + 1
      ensures key in old(index) ==> used == old(used)
      ensures released == if key in old(index) && id in old(store) then Some(old(store)[id].val) else None
      ensures id in store && store[id].key == key && store[id].val == val
      ensures store[id].timestamp == if key in old(index) && id in old(store) then old(store)[id].timestamp else 0
      ensures store.Keys == old(store).Keys + {id}
      ensures forall k | k in old(store) && k != id :: k in store && SameNode(store[k], old(store)[k])
      ensures Contents() == old(Contents())[key := (val, if key in old(Contents()) then old(Contents())[key].1 else 0)]
    {
      hide TableOk, Total, PowerOfTwo, ContentsOf;
      ghost var before := heads[..];
      KeyNode(before, store, index, chains, key);
      Initial();
      if heads.Length == 0 {
        heads := new Option<Id>[INITIAL_SIZE](_ => None);
        chains := seq(INITIAL_SIZE, _ => []);
        EmptyTable(heads[..], store, chains);
        NoKeys(before, store, index, old(chains));
      }
      id, released := Place(key, val);
      if used >= heads.Length {
        DoublePower(heads.Length);
        Rehash(if heads.Length >= HALF_MAX then heads.Length else heads.Length * 2);
      }
      SetContents(before, old(store), old(index), old(chains), store, key, id, val);
    }

    /** Find or make the key's node in a table that has buckets. */
    method Place(key: Key, val: Val) returns (id: Id, released: Option<Val>)
      requires Sound() && heads.Length > 0
      modifies this`store, this`used, this`top, this`chains, this`index, heads
      ensures Sound() && index == old(index)[key := id] && (key in old(index) ==> id == old(index)[key])
      ensures key !in old(index) ==> id !in old(store) && used == old(used) + 1
      ensures key in old(index) ==> used == old(used)
      ensures released == if key in old(index) && id in old(store) then Some(old(store)[id].val) else None
      ensures id in store && store[id].key == key && store[id].val == val
      ensures store[id].timestamp == if key in old(index) && id in old(store) then old(store)[id].timestamp else 0
      ensures store.Keys == old(store).Keys + {id}
      ensures forall k | k in old(store) && k != id :: k in store && SameNode(store[k], old(store)[k])
    {
      assert |chains| == heads.Length;
      hide TableOk, Total;
      var b := Bucket(key, heads.Length);
      var k := Walk(b, key);
      if k.Some? && store[k.value].key == key {
        NodeIndexed(heads[..], store, index, chains, b, k.value);
        id, released := k.value, Some(store[k.value].val);
        Overwrite(key, id, val);
        assert index[key := id] == index;
      } else {
        if key in index {
          KeyFound(heads[..], store, index, chains, key);
        }
        id := Append(b, k, key, val);
        released := None;
      }
    }

    /** The key has a node: it gets the new value. */
    method Overwrite(key: Key, id: Id, val: Val)
      requires Sound() && heads.Length > 0 && key in index && index[key] == id && id in store
      modifies this`store
      ensures Sound() && store == old(store)[id := old(store)[id].(val := val)]
    {
      hide TableOk, Total;
      Overwritten(heads[..], store, index, chains, key, val);
      store := store[id := store[id].(val := val)];
    }

    /** The key has no node: a new one goes behind the last of its chain. */
    method Append(b: nat, last: Option<Id>, key: Key, val: Val) returns (id: Id)
      requires Sound() && heads.Length > 0 && b == Bucket(key, heads.Length) && b < |chains| && key !in index
      requires last == if chains[b] == [] then None else Some(chains[b][|chains[b]| - 1])
      modifies this`store, this`used, this`top, this`chains, this`index, heads
      ensures Sound() && id !in old(store) && used == old(used) + 1 && index == old(index)[key := id]
      ensures store.Keys == old(store).Keys + {id} && store[id] == Node(key, val, 0, None)
      ensures forall k | k in old(store) :: k in store && SameNode(store[k], old(store)[k])
    {
      hide TableOk, Total;
      id := top;
      Appended(heads[..], store, index, chains, key, val, id);
      TotalSet(chains, b, chains[b] + [id], |chains|);
      ghost var c := chains[b];
      HeadAppend(heads[..], store, index, chains, b, id);
      if last.Some? {
        assert last.value in c;
        store := store[last.value := store[last.value].(next := Some(id))];
        assert heads[..] == heads[..][b := Head(c + [id])];
      } else {
        heads[b] := Some(id);
      }
      store := store[id := Node(key, val, 0, None)];
      used, top := used + 1, top + 1;
      chains, index := chains[b := c + [id]], index[key := id];
    }

    /** `del_keyval_dict`: the key's node is unlinked and freed; every other entry stays. */
    method Delete(key: Key) returns (gone: bool, released: Option<Val>)
      requires Valid()
      modifies this`store, this`used, this`chains, this`index, heads
      ensures Valid() && gone == (key in old(index)) && index == old(index) - {key}
      ensures gone ==> old(index)[key] in old(store) && released == Some(old(store)[old(index)[key]].val)
                       && store.Keys == old(store).Keys - {old(index)[key]} && used == old(used) - 1
      ensures !gone ==> store == old(store) && used == old(used) && released == None
      ensures forall k | k in store :: k in old(store) && SameNode(store[k], old(store)[k])
      ensures Contents() == old(Contents()) - {key}
    {
      gone, released := false, None;
      if heads.Length == 0 {
        return;
      }
      var b := Bucket(key, heads.Length);
      assert ChainOk(heads[..], store, index, chains, b);
      if key in index {
        assert Indexed(store, index, chains, key);
      }
      hide TableOk, Total, ContentsOf, PowerOfTwo;
      var k := heads[b];
      if k.None? {
        return;
      }
      var p: Option<Id> := None;
      ghost var c, i := chains[b], 0;
      assert Link(store, c, 0);
      while store[k.value].next.Some? && store[k.value].key != key
        invariant k.Some? && i < |c| && k.value == c[i] && Link(store, c, i)
        invariant p == if i == 0 then None else Some(c[i - 1])
        invariant forall j | 0 <= j < i :: store[c[j]].key != key
        decreases |c| - i
      {
        assert Link(store, c, i + 1);
        p, k, i := k, store[k.value].next, i + 1;
      }
      if store[k.value].key == key {
        NodeIndexed(heads[..], store, index, chains, b, k.value);
        assert p.Some? ==> Link(store, c, i - 1);
        gone, released := true, Some(store[k.value].val);
        Unlink(b, i, p, k.value, key);
        DropContents(old(heads[..]), old(store), old(index), old(chains), store, key);
      } else {
        assert index - {key} == index;
      }
    }

    /** `dict_copy`: the same keys and values in new nodes; timestamps are not carried over. */
    method Copy() returns (d: Table)
      requires Valid()
      ensures Valid() && fresh(d) && fresh(d.heads) && d.Valid()
      ensures d.Contents() == Untimed(Contents())
    {
      hide TableOk, InPart, PowerOfTwo, Total, ContentsOf, CopyOf, Untimed;
      d := new Table();
      CopyNone(index, store, chains, d.index, d.store);
      ghost var hs := heads[..];
      var j := 0;
      while j < heads.Length
        invariant j <= heads.Length && fresh(d) && fresh(d.heads) && d.Valid() && Valid()
        invariant d.Contents() == CopyOf(index, store, chains, j, 0)
      {
        d.AddChain(this, j);
        j := j + 1;
      }
      CopyAll(heads[..], store, index, chains);
    }

    /** Add every entry of one chain of another table. */
    method AddChain(src: Table, j: nat)
      requires this != src && heads != src.heads && Valid() && src.Valid() && j < src.heads.Length
      requires Contents() == CopyOf(src.index, src.store, src.chains, j, 0)
      modifies this, heads
      ensures Valid() && (heads == old(heads) || fresh(heads)) && src.Valid()
      ensures Contents() == CopyOf(src.index, src.store, src.chains, j + 1, 0)
    {
      hide TableOk, InPart, PowerOfTwo, Total, ContentsOf, CopyOf;
      SameLength(src.heads[..], src.store, src.index, src.chains);
      ghost var i := 0;
      var k := src.heads[j];
      ChainHead(src.heads[..], src.store, src.index, src.chains, j);
      while k.Some?
        invariant i <= |src.chains[j]| && k == Head(src.chains[j][i..])
        invariant Valid() && (heads == old(heads) || fresh(heads)) && heads != src.heads && src.Valid()
        invariant Contents() == CopyOf(src.index, src.store, src.chains, j, i)
        decreases |src.chains[j]| - i
      {
        PartNew(src.heads[..], src.store, src.index, src.chains, j, i);
        CopyStep(src.heads[..], src.store, src.index, src.chains, j, i);
        var id, released := Set(src.store[k.value].key, src.store[k.value].val);
        k, i := src.store[k.value].next, i + 1;
      }
      CopyNext(src.index, src.store, src.chains, j);
    }

    /** Unlink and free the node at place `i` of its chain, `p` being the one before it. */
    method Unlink(b: nat, ghost i: nat, p: Option<Id>, k: Id, key: Key)
      requires Sound() && heads.Length > 0 && b == Bucket(key, heads.Length) && b < |chains| && i < |chains[b]|
      requires chains[b][i] == k && k in store && store[k].key == key
      requires p == (if i == 0 then None else Some(chains[b][i - 1])) && (p.Some? ==> p.value in store)
      modifies this`store, this`used, this`chains, this`index, heads
      ensures Sound() && index == old(index) - {key} && store.Keys == old(store).Keys - {k} && used == old(used) - 1
      ensures forall m | m in store :: m in old(store) && SameNode(store[m], old(store)[m])
    {
      hide TableOk, Total;
      ghost var c := chains[b];
      Removed(heads[..], store, index, chains, key, i);
      TotalSet(chains, b, c[..i] + c[i + 1..], |chains|);
      TotalSome(chains, b, |chains|);
      if p.Some? {
        store := store[p.value := store[p.value].(next := store[k].next)];
        assert heads[..] == heads[..][b := Head(c[..i] + c[i + 1..])];
      } else {
        heads[b] := store[k].next;
      }
      store := store - {k};
      used := used - 1;
      chains, index := chains[b := c[..i] + c[i + 1..]], index - {key};
    }
  }

  lemma {:induction false} TotalSome(chains: seq<seq<Id>>, b: nat, n: nat)
    requires b < n <= |chains|
    ensures Total(chains, n) >= |chains[b]|
  {
    if b < n - 1 {
      TotalSome(chains, b, n - 1);
    }
  }

  lemma HeadAppend(heads: seq<Option<Id>>, s: Store, index: map<Key, Id>, chains: seq<seq<Id>>, b: nat, id: Id)
    requires TableOk(heads, s, index, chains) && b < |chains|
    ensures chains[b] != [] ==> heads[b] == Head(chains[b] + [id])
    ensures chains[b] == [] ==> Head(chains[b] + [id]) == Some(id)
  {
    assert ChainOk(heads, s, index, chains, b);
  }

  lemma KeyFound(heads: seq<Option<Id>>, s: Store, index: map<Key, Id>, chains: seq<seq<Id>>, key: Key)
    requires TableOk(heads, s, index, chains) && key in index && |heads| > 0
    ensures |chains| == |heads| && index[key] in s && s[index[key]].key == key
        && index[key] in chains[Bucket(key, |heads|)]
  {
    assert Indexed(s, index, chains, key);
  }

  /** The entries met in the first `j` chains and the first `i` places of chain `j`, without timestamps. */
  ghost function CopyOf(index: map<Key, Id>, s: Store, chains: seq<seq<Id>>, j: nat, i: nat): map<Key, (Val, int)> {
    map key | key in index && index[key] in s && InPart(chains, j, i, index[key]) :: (s[index[key]].val, 0)
  }

  ghost function Untimed(m: map<Key, (Val, int)>): map<Key, (Val, int)> {
    map key | key in m :: (m[key].0, 0)
  }

  lemma CopyNone(index: map<Key, Id>, s: Store, chains: seq<seq<Id>>, index': map<Key, Id>, s': Store)
    requires index' == map[]
    ensures ContentsOf(index', s') == CopyOf(index, s, chains, 0, 0)
  {
  }

  lemma CopyAll(heads: seq<Option<Id>>, s: Store, index: map<Key, Id>, chains: seq<seq<Id>>)
    requires TableOk(heads, s, index, chains)
    ensures CopyOf(index, s, chains, |heads|, 0) == Untimed(ContentsOf(index, s))
  {
    forall key | key in index ensures InPart(chains, |heads|, 0, index[key]) {
      assert Indexed(s, index, chains, key);
      var b := Bucket(key, |chains|);
      var i :| 0 <= i < |chains[b]| && chains[b][i] == index[key];
      assert b < |chains| && i < |chains[b]| && b < |heads|;
    }
  }

  lemma CopyStep(heads: seq<Option<Id>>, s: Store, index: map<Key, Id>, chains: seq<seq<Id>>, j: nat, i: nat)
    requires TableOk(heads, s, index, chains) && j < |chains| && i < |chains[j]| && chains[j][i] in s
    ensures var node := s[chains[j][i]]; var m := CopyOf(index, s, chains, j, i);
            CopyOf(index, s, chains, j, i + 1) == m[node.key := (node.val, if node.key in m then m[node.key].1 else 0)]
  {
    PartNew(heads, s, index, chains, j, i);
    forall key | key in index && index[key] in s
      ensures InPart(chains, j, i + 1, index[key]) <==> InPart(chains, j, i, index[key]) || key == s[chains[j][i]].key
    {
      PartStep(chains, j, i, index[key]);
      assert Indexed(s, index, chains, key);
    }
  }

  lemma CopyNext(index: map<Key, Id>, s: Store, chains: seq<seq<Id>>, j: nat)
    requires j < |chains|
    ensures CopyOf(index, s, chains, j + 1, 0) == CopyOf(index, s, chains, j, |chains[j]|)
  {
    forall key | key in index ensures InPart(chains, j + 1, 0, index[key])
        <==> InPart(chains, j, |chains[j]|, index[key]) {
      PartEnd(chains, j, index[key]);
    }
  }

  lemma SameLength(heads: seq<Option<Id>>, s: Store, index: map<Key, Id>, chains: seq<seq<Id>>)
    requires TableOk(heads, s, index, chains)
    ensures |heads| == |chains|
  {
  }

  lemma ChainHead(heads: seq<Option<Id>>, s: Store, index: map<Key, Id>, chains: seq<seq<Id>>, j: nat)
    requires TableOk(heads, s, index, chains) && j < |heads| == |chains|
    ensures heads[j] == Head(chains[j][0..])
  {
    assert ChainOk(heads, s, index, chains, j) && chains[j][0..] == chains[j];
  }

  lemma KeyNode(heads: seq<Option<Id>>, s: Store, index: map<Key, Id>, chains: seq<seq<Id>>, key: Key)
    requires TableOk(heads, s, index, chains)
    ensures key in index ==> index[key] in s
  {
    if key in index {
      assert Indexed(s, index, chains, key);
    }
  }

  lemma NoKeys(heads: seq<Option<Id>>, s: Store, index: map<Key, Id>, chains: seq<seq<Id>>)
    requires TableOk(heads, s, index, chains) && |heads| == 0
    ensures index == map[] && Total(chains, |chains|) == 0
  {
  }

  lemma Initial()
    ensures PowerOfTwo(INITIAL_SIZE)
  {
    assert PowerOfTwo(1) && PowerOfTwo(2) && PowerOfTwo(4) && PowerOfTwo(8) && PowerOfTwo(16);
  }

  lemma DoublePower(n: nat)
    requires PowerOfTwo(n)
    ensures PowerOfTwo(n * 2)
  {
    assert n * 2 / 2 == n && n * 2 % 2 == 0;
  }

  lemma SetContents(heads: seq<Option<Id>>, s: Store, index: map<Key, Id>, chains: seq<seq<Id>>, s': Store, key: Key,
      id: Id, val: Val)
    requires TableOk(heads, s, index, chains) && (if key in index then id == index[key] else id !in s)
    requires id in s' && s'[id].val == val && s'[id].timestamp == if key in index && id in s then s[id].timestamp else 0
    requires s'.Keys == s.Keys + {id} && forall k | k in s && k != id :: k in s' && SameNode(s'[k], s[k])
    ensures var m := ContentsOf(index, s);
            ContentsOf(index[key := id], s') == m[key := (val, if key in m then m[key].1 else 0)]
  {
    forall k | k in index && k != key ensures index[k] != id && index[k] in s {
      IndexApart(heads, s, index, chains, k, key, id);
    }
    ContentsSame(index, index[key := id], s, s', key);
    KeyNode(heads, s, index, chains, key);
    var m, m' := ContentsOf(index, s), ContentsOf(index[key := id], s');
    assert m' == (m' - {key})[key := m'[key]];
    assert m[key := m'[key]] == (m - {key})[key := m'[key]];
  }

  lemma DropContents(heads: seq<Option<Id>>, s: Store, index: map<Key, Id>, chains: seq<seq<Id>>, s': Store, key: Key)
    requires TableOk(heads, s, index, chains) && key in index
    requires index[key] in s && s'.Keys == s.Keys - {index[key]} && forall k | k in s' ::
        k in s && SameNode(s'[k], s[k])
    ensures ContentsOf(index - {key}, s') == ContentsOf(index, s) - {key}
  {
    forall m | m in index && m != key ensures index[m] != index[key] && index[m] in s {
      NodesApart(heads, s, index, chains, m, key);
    }
    ContentsSame(index, index - {key}, s, s', key);
    var m' := ContentsOf(index - {key}, s');
    assert m' - {key} == m';
  }

  lemma IndexApart(heads: seq<Option<Id>>, s: Store, index: map<Key, Id>, chains: seq<seq<Id>>, k: Key, key: Key,
      id: Id)
    requires TableOk(heads, s, index, chains) && k in index && k != key
    requires if key in index then id == index[key] else id !in s
    ensures index[k] != id && index[k] in s
  {
    assert Indexed(s, index, chains, k);
    if key in index {
      NodesApart(heads, s, index, chains, k, key);
    }
  }

  lemma EmptyTable(heads: seq<Option<Id>>, s: Store, chains: seq<seq<Id>>)
    requires |heads| == |chains| > 0 && (forall b | 0 <= b < |heads| :: heads[b] == None && chains[b] == [])
    ensures TableOk(heads, s, map[], chains) && Total(chains, |chains|) == 0
  {
    TotalNone(chains, |chains|);
  }

  lemma NodeIndexed(heads: seq<Option<Id>>, s: Store, index: map<Key, Id>, chains: seq<seq<Id>>, b: nat, id: Id)
    requires TableOk(heads, s, index, chains) && b < |chains| && id in chains[b]
    ensures id in s && s[id].key in index && index[s[id].key] == id && Bucket(s[id].key, |chains|) == b
  {
    assert ChainOk(heads, s, index, chains, b);
    var i :| 0 <= i < |chains[b]| && chains[b][i] == id;
  }

  lemma Overwritten(heads: seq<Option<Id>>, s: Store, index: map<Key, Id>, chains: seq<seq<Id>>, key: Key, val: Val)
    requires TableOk(heads, s, index, chains) && key in index && |heads| > 0
    ensures index[key] in s && TableOk(heads, s[index[key] := s[index[key]].(val := val)], index, chains)
  {
    assert Indexed(s, index, chains, key);
    var id, b := index[key], Bucket(key, |heads|);
    assert ChainOk(heads, s, index, chains, b);
    var c, s' := chains[b], s[id := s[id].(val := val)];
    forall i: nat | i < |c| ensures Link(s', c, i) {
      assert Link(s, c, i);
    }
    forall k | k in index && Bucket(k, |heads|) == b ensures index[k] in s' && s'[index[k]].key == k && index[k] in c {
      assert Indexed(s, index, chains, k);
    }
    ChainReplaced(heads, s, index, chains, s', index, b, c, key);
    assert heads[b := Head(c)] == heads && chains[b := c] == chains;
  }

  /** The store after a new node was linked behind the last of its chain. */
  function AppendStore(s: Store, c: seq<Id>, id: Id, node: Node): Store
    requires forall k | k in c :: k in s
  {
    (if c == [] then s else s[c[|c| - 1] := s[c[|c| - 1]].(next := Some(id))])[id := node]
  }

  lemma Appended(heads: seq<Option<Id>>, s: Store, index: map<Key, Id>, chains: seq<seq<Id>>, key: Key, val: Val,
      id: Id)
    requires TableOk(heads, s, index, chains) && key !in index && |heads| > 0 && id !in s
    ensures var b := Bucket(key, |heads|);
            && (forall k | k in chains[b] :: k in s)
            && TableOk(heads[b := Head(chains[b] + [id])], AppendStore(s, chains[b], id, Node(key, val, 0, None)),
                       index[key := id], chains[b := chains[b] + [id]])
  {
    var b := Bucket(key, |heads|);
    assert ChainOk(heads, s, index, chains, b);
    var c := chains[b];
    var c', s', index' := c + [id], AppendStore(s, c, id, Node(key, val, 0, None)), index[key := id];
    AppendChain(s, index, c, b, |heads|, key, val, id);
    forall k | k in index' && Bucket(k, |heads|) == b ensures index'[k] in s' && s'[index'[k]].key == k
        && index'[k] in c' {
      if k != key {
        assert Indexed(s, index, chains, k);
      } else {
        assert c'[|c|] == id;
      }
    }
    ChainReplaced(heads, s, index, chains, s', index', b, c', key);
  }

  lemma AppendChain(s: Store, index: map<Key, Id>, c: seq<Id>, b: nat, size: nat, key: Key, val: Val, id: Id)
    requires size > 0 && Linked(s, c) && NoRepeat(c) && Sorted(s, index, c, b, size)
    requires key !in index && Bucket(key, size) == b && id !in s
    ensures forall k | k in c :: k in s
    ensures var s' := AppendStore(s, c, id, Node(key, val, 0, None));
            Linked(s', c + [id]) && NoRepeat(c + [id]) && Sorted(s', index[key := id], c + [id], b, size)
  {
    assert forall k | k in c :: k in s;
    var c', s' := c + [id], AppendStore(s, c, id, Node(key, val, 0, None));
    forall i: nat | i < |c'| ensures Link(s', c', i) {
      if i < |c| {
        assert Link(s, c, i);
      }
    }
  }

  /** The store after the node at `i` of its chain was unlinked and freed. */
  function RemoveStore(s: Store, c: seq<Id>, i: nat): Store
    requires i < |c| && forall k | k in c :: k in s
  {
    (if i == 0 then s else s[c[i - 1] := s[c[i - 1]].(next := s[c[i]].next)]) - {c[i]}
  }

  lemma Removed(heads: seq<Option<Id>>, s: Store, index: map<Key, Id>, chains: seq<seq<Id>>, key: Key, i: nat)
    requires TableOk(heads, s, index, chains) && |heads| > 0
    requires var c := chains[Bucket(key, |heads|)]; i < |c| && c[i] in s && s[c[i]].key == key
    ensures var b := Bucket(key, |heads|); var c := chains[b];
            && (forall k | k in c :: k in s) && key in index && index[key] == c[i]
            && (i == 0 ==> Head(c[..i] + c[i + 1..]) == s[c[i]].next)
              && (i > 0 ==> Head(c[..i] + c[i + 1..]) == heads[b])
            && TableOk(heads[b := Head(c[..i] + c[i + 1..])], RemoveStore(s, c, i), index - {key},
              chains[b := c[..i] + c[i + 1..]])
  {
    var b := Bucket(key, |heads|);
    assert ChainOk(heads, s, index, chains, b);
    var c := chains[b];
    assert forall k | k in c :: k in s;
    assert Link(s, c, i);
    var c', s', index' := c[..i] + c[i + 1..], RemoveStore(s, c, i), index - {key};
    RemoveChain(s, index, c, b, |heads|, key, i);
    forall k | k in index' && Bucket(k, |heads|) == b ensures index'[k] in s' && s'[index'[k]].key == k
        && index'[k] in c' {
      assert Indexed(s, index, chains, k);
      var j :| 0 <= j < |c| && c[j] == index[k];
      assert c'[if j < i then j else j - 1] == c[j];
    }
    ChainReplaced(heads, s, index, chains, s', index', b, c', key);
  }

  lemma RemoveChain(s: Store, index: map<Key, Id>, c: seq<Id>, b: nat, size: nat, key: Key, i: nat)
    requires size > 0 && Linked(s, c) && NoRepeat(c) && Sorted(s, index, c, b, size) && i < |c| && c[i] in s
        && s[c[i]].key == key
    requires forall k | k in c :: k in s
    ensures var c', s' := c[..i] + c[i + 1..], RemoveStore(s, c, i);
            Linked(s', c') && NoRepeat(c') && Sorted(s', index - {key}, c', b, size)
  {
    var c', s' := c[..i] + c[i + 1..], RemoveStore(s, c, i);
    assert Link(s, c, i);
    forall m: nat | m < |c'| ensures Link(s', c', m) {
      assert Link(s, c, if m < i then m else m + 1);
    }
  }

  lemma RelinkedAt(heads: seq<Option<Id>>, s: Store, s0: Store, index: map<Key, Id>, chains: seq<seq<Id>>,
      moved: set<Id>, id: Id)
    requires Relinked(heads, s, s0, index, chains, moved) && id in s0
    ensures id in s && SameNode(s[id], s0[id]) && (id !in moved ==> s[id] == s0[id])
  {
  }

  lemma RelinkNone(heads: seq<Option<Id>>, s: Store, index: map<Key, Id>, chains: seq<seq<Id>>)
    requires |heads| == |chains| > 0 && (forall b | 0 <= b < |heads| :: heads[b] == None && chains[b] == [])
    ensures Relinked(heads, s, s, index, chains, {})
  {
  }

  lemma {:induction false} TotalNone(chains: seq<seq<Id>>, n: nat)
    requires n <= |chains| && forall b | 0 <= b < n :: chains[b] == []
    ensures Total(chains, n) == 0
  {
    if n > 0 {
      TotalNone(chains, n - 1);
    }
  }
}
