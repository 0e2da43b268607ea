/**
 Saved values: how a value is written and read back, and the remapping of type ids that are only good for
 one process.

 A stream is a sequence of self-delimiting tokens.  Values of built-in types that hold no other values are
 payloads; how a payload is written inside its token is not modelled.
 */
module Persist {
  import opened Wrappers

  const FIRST_CUSTOM: nat := 27
  const TYPE_CAP: nat := 256
  const USER_MIN: nat := 100000
  const PAIR_TAG: nat := 9
  const TYPE_TAG: nat := 0xFFFF
  const BY_NAME: nat := 0xFFFF_FFFF
  const MAX_NAME: nat := 4096
  const DUMP_DEPTH: nat := 512
  const LOAD_DEPTH: nat := 16384

  /** `Cell` is a pair with its two halves, or a lambda or macro with its parameters and body; a half may be
      missing.  `Group` is a vector, set, dict, deque or persistent map with its elements. */
  datatype Val =
    | Leaf(tag: nat, data: seq<nat>)
    | Cell(tag: nat, name: string, left: Option<Val>, right: Option<Val>)
    | Group(tag: nat, elems: seq<Val>)
    | Custom(id: nat, data: seq<nat>)
    | TypeObj(id: nat)

  datatype Token = U8(n: nat) | U16(n: nat) | U32(n: nat) | I64(i: int) | Str(s: string) | Data(data: seq<nat>)

  /** The program's built-in types, the same in every process: which tags are cells and groups, which can be
      written, which can be read, and whose contents the check before writing does not look into. */
  datatype Codec = Codec(cells: set<nat>, groups: set<nat>, dumps: set<nat>, loads: set<nat>, unchecked: set<nat>)

  predicate CodecOk(c: Codec) {
    c.cells !! c.groups && PAIR_TAG in c.cells && PAIR_TAG in c.dumps && PAIR_TAG in c.loads && PAIR_TAG !in c.unchecked
    && (forall g | g in c.cells :: 1 <= g < FIRST_CUSTOM) && (forall g | g in c.groups :: 1 <= g < FIRST_CUSTOM)
  }

  datatype CustomType = CustomType(name: string, spec: string, dumps: bool, loads: bool)

  /** A process's registries: native types from id 27 on, classes from id 100000 on, in order of registration. */
  datatype Session = Session(customs: seq<CustomType>, classes: seq<string>)

  predicate SessionOk(s: Session) {
    && FIRST_CUSTOM + |s.customs| <= TYPE_CAP
    && (forall i, j | 0 <= i < j < |s.customs| :: s.customs[i].name != s.customs[j].name)
    && (forall i, j | 0 <= i < j < |s.classes| :: s.classes[i] != s.classes[j])
  }

  function CustomOf(s: Session, id: nat): Option<CustomType> {
    if FIRST_CUSTOM <= id < FIRST_CUSTOM + |s.customs| then Some(s.customs[id - FIRST_CUSTOM]) else None
  }

  function ClassOf(s: Session, id: nat): Option<string> {
    if USER_MIN <= id < USER_MIN + |s.classes| then Some(s.classes[id - USER_MIN]) else None
  }

  /** `alc_user_type_id_by_name`. */
  function ClassId(classes: seq<string>, name: string, from: nat): (id: Option<nat>)
    requires from <= |classes|
    ensures id.Some? ==> USER_MIN + from <= id.value < USER_MIN + |classes| && classes[id.value - USER_MIN] == name
    ensures id.None? ==> name !in classes[from..]
    decreases |classes| - from
  {
    if from == |classes| then None
    else if classes[from] == name then Some(USER_MIN + from)
    else ClassId(classes, name, from + 1)
  }

  predicate KnownHalf(c: Codec, s: Session, o: Option<Val>) {
    o.Some? ==> Known(c, s, o.value)
  }

  /** The value is one that a process of this session can hold. */
  predicate Known(c: Codec, s: Session, v: Val) {
    match v
    case Leaf(t, _) => 1 <= t < FIRST_CUSTOM && t !in c.cells && t !in c.groups
    case Cell(t, _, l, r) => t in c.cells && KnownHalf(c, s, l) && KnownHalf(c, s, r)
    case Group(t, es) => t in c.groups && forall i | 0 <= i < |es| :: Known(c, s, es[i])
    case Custom(id, _) => CustomOf(s, id).Some?
    case TypeObj(id) => id < USER_MIN || ClassOf(s, id).Some?
  }

  // ---- the check before writing ----

  predicate IsNil(v: Val) {
    v == Cell(PAIR_TAG, "", None, None)
  }

  /** `is_fully_dumpable`.  A list is walked along its tails at one depth. */
  predicate Dumpable(c: Codec, s: Session, v: Val, depth: nat)
    decreases v, 1
  {
    depth <= DUMP_DEPTH
    && match v
       case Leaf(t, _) => t in c.dumps
       case Cell(t, _, l, r) => t in c.dumps && (t == PAIR_TAG ==> DumpableList(c, s, v, depth))
       case Group(t, es) => t in c.dumps && (t !in c.unchecked
           ==> forall i | 0 <= i < |es| :: Dumpable(c, s, es[i], depth + 1))
       case Custom(id, _) => CustomOf(s, id).Some? && CustomOf(s, id).value.dumps
       case TypeObj(_) => true
  }

  /** The walk over a list's cells, each head one level deeper, and over an improper tail. */
  predicate DumpableList(c: Codec, s: Session, v: Val, depth: nat)
    requires v.Cell?
    decreases v, 0
  {
    IsNil(v) ||
    ((v.left.Some? ==> Dumpable(c, s, v.left.value, depth + 1))
     && (v.right.Some? ==>
           if v.right.value.Cell? && v.right.value.tag == PAIR_TAG then DumpableList(c, s, v.right.value, depth)
           else Dumpable(c, s, v.right.value, depth + 1)))
  }

  // ---- writing ----

  function Both(a: Option<seq<Token>>, b: Option<seq<Token>>): Option<seq<Token>> {
    if a.None? || b.None? then None else Some(a.value + b.value)
  }

  function Flag(l: Option<Val>, r: Option<Val>): nat {
    (if l.Some? then 1 else 0) + (if r.Some? then 2 else 0)
  }

  function DumpHalf(c: Codec, s: Session, o: Option<Val>): Option<seq<Token>>
    decreases o, 0
  {
    if o.None? then Some([]) else DumpVal(c, s, o.value)
  }

  /** `__DUMP__`: none if some type cannot be written. */
  function DumpVal(c: Codec, s: Session, v: Val): Option<seq<Token>>
    decreases v, 1, 0
  {
    match v
    case Leaf(t, d) => if t in c.dumps then Some([U16(t), Data(d)]) else None
    case Cell(t, name, l, r) =>
      if t !in c.dumps then None
      else Both(Some([U16(t), Str(name), U8(Flag(l, r))]), Both(DumpHalf(c, s, l), DumpHalf(c, s, r)))
    case Group(t, es) => if t !in c.dumps then None else Both(Some([U16(t), U32(|es|)]), DumpAll(c, s, v, 0))
    case Custom(id, d) => if CustomOf(s, id).Some? && CustomOf(s, id).value.dumps then Some([U16(id), Data(d)])
        else None
    case TypeObj(id) =>
      if id < USER_MIN then Some([U16(TYPE_TAG), U32(id)])
      else match ClassOf(s, id)
        case None => None
        case Some(name) => Some([U16(TYPE_TAG), U32(BY_NAME), U32(|name|), Str(name)])
  }

  function DumpAll(c: Codec, s: Session, v: Val, k: nat): Option<seq<Token>>
    requires v.Group? && k <= |v.elems|
    decreases v, 0, |v.elems| - k
  {
    if k == |v.elems| then Some([]) else Both(DumpVal(c, s, v.elems[k]), DumpAll(c, s, v, k + 1))
  }

  /** Every type in the value can be written. */
  predicate Writable(c: Codec, s: Session, v: Val) {
    match v
    case Leaf(t, _) => t in c.dumps
    case Cell(t, _, l, r) => t in c.dumps && (l.Some? ==> Writable(c, s, l.value))
        && (r.Some? ==> Writable(c, s, r.value))
    case Group(t, es) => t in c.dumps && forall i | 0 <= i < |es| :: Writable(c, s, es[i])
    case Custom(id, _) => CustomOf(s, id).Some? && CustomOf(s, id).value.dumps
    case TypeObj(id) => id < USER_MIN || ClassOf(s, id).Some?
  }

  /** Writing fails exactly on a value that holds something that cannot be written. */
  lemma {:induction false} DumpWrites(c: Codec, s: Session, v: Val)
    ensures DumpVal(c, s, v).Some? <==> Writable(c, s, v)
    decreases v, 1, 0
  {
    match v
    case Cell(_, _, l, r) =>
      if l.Some? {
        DumpWrites(c, s, l.value);
      }
      if r.Some? {
        DumpWrites(c, s, r.value);
      }
    case Group(_, es) => DumpAllWrites(c, s, v, 0);
    case _ =>
  }

  lemma {:induction false} DumpAllWrites(c: Codec, s: Session, v: Val, k: nat)
    requires v.Group? && k <= |v.elems|
    ensures DumpAll(c, s, v, k).Some? <==> forall i | k <= i < |v.elems| :: Writable(c, s, v.elems[i])
    decreases v, 0, |v.elems| - k
  {
    if k < |v.elems| {
      DumpWrites(c, s, v.elems[k]);
      DumpAllWrites(c, s, v, k + 1);
    }
  }

  /** The value holds nothing that the check does not look into. */
  predicate Checked(c: Codec, v: Val) {
    match v
    case Cell(t, _, l, r) => t == PAIR_TAG && (l.Some? ==> Checked(c, l.value)) && (r.Some? ==> Checked(c, r.value))
    case Group(t, es) => t !in c.unchecked && forall i | 0 <= i < |es| :: Checked(c, es[i])
    case _ => true
  }

  /** Where the check looks, what it passes can be written. */
  lemma {:induction false} CheckedWrites(c: Codec, s: Session, v: Val, depth: nat)
    requires CodecOk(c) && Known(c, s, v) && Checked(c, v) && Dumpable(c, s, v, depth)
    ensures Writable(c, s, v)
    decreases v, 1
  {
    match v
    case Cell(_, _, _, _) => CheckedListWrites(c, s, v, depth);
    case Group(_, es) =>
      forall i | 0 <= i < |es| ensures Writable(c, s, es[i]) {
        CheckedWrites(c, s, es[i], depth + 1);
      }
    case _ =>
  }

  lemma {:induction false} CheckedListWrites(c: Codec, s: Session, v: Val, depth: nat)
    requires CodecOk(c) && v.Cell? && Known(c, s, v) && Checked(c, v) && DumpableList(c, s, v, depth)
    ensures Writable(c, s, v)
    decreases v, 0
  {
    if !IsNil(v) {
      if v.left.Some? {
        CheckedWrites(c, s, v.left.value, depth + 1);
      }
      if v.right.Some? {
        if v.right.value.Cell? && v.right.value.tag == PAIR_TAG {
          CheckedListWrites(c, s, v.right.value, depth);
        } else {
          CheckedWrites(c, s, v.right.value, depth + 1);
        }
      }
    }
  }

  /** A container that the check does not look into passes it with anything inside, and then cannot be written. */
  lemma UncheckedSlips(c: Codec, s: Session, t: nat, inner: Val)
    requires t in c.unchecked && t in c.dumps && !Writable(c, s, inner)
    ensures Dumpable(c, s, Group(t, [inner]), 0) && DumpVal(c, s, Group(t, [inner])).None?
  {
    var v := Group(t, [inner]);
    DumpWrites(c, s, v);
    assert !Writable(c, s, v.elems[0]);
  }

  // ---- reading ----

  datatype Binding = Binding(val: Val, timestamp: int)
  datatype Entry = Entry(val: Val, expiry: int)

  /** The loading process: its registries, its global bindings, and its keyspace. */
  datatype Target = Target(session: Session, env: map<string, Binding>, kv: map<string, Entry>)

  /** The id of the class of that name; if there is none, one is made and the name is bound to it. */
  function Claim(t: Target, name: string): (r: (nat, Target)) {
    match ClassId(t.session.classes, name, 0)
    case Some(id) => (id, t)
    case None =>
      var id := USER_MIN + |t.session.classes|;
      var stamp := if name in t.env then t.env[name].timestamp else 0;
      (id, t.(session := t.session.(classes := t.session.classes + [name]),
          env := t.env[name := Binding(TypeObj(id), stamp)]))
  }

  datatype Loaded = Loaded(val: Val, rest: seq<Token>, target: Target)

  /** The remap table: the id here of a native type's id there, or 0. */
  type Remap = map<nat, nat>

  function Remapped(remap: Remap, id: nat): nat {
    if id < TYPE_CAP && id in remap then remap[id] else 0
  }

  predicate Loadable(c: Codec, s: Session, id: nat) {
    if id < FIRST_CUSTOM then id in c.loads else CustomOf(s, id).Some? && CustomOf(s, id).value.loads
  }

  /** `load_exp_t`, at a nesting level: none if the stream is malformed, a type is missing here, or the value
      is nested too deeply. */
  function LoadVal(c: Codec, toks: seq<Token>, t: Target, remap: Remap, level: nat): (r: Option<Loaded>)
    ensures r.Some? ==> |r.value.rest| < |toks|
    decreases |toks|, 0
  {
    if toks == [] || !toks[0].U16? then None
    else if toks[0].n == TYPE_TAG then LoadType(toks[1..], t)
    else
      var tag := if toks[0].n >= FIRST_CUSTOM then Remapped(remap, toks[0].n) else toks[0].n;
      if tag == 0 || !Loadable(c, t.session, tag) || level >= LOAD_DEPTH then None
      else if tag in c.cells then LoadCell(c, tag, toks[1..], t, remap, level + 1)
      else if tag in c.groups then LoadGroup(c, tag, toks[1..], t, remap, level + 1)
      else if |toks| < 2 || !toks[1].Data? then None
      else Some(Loaded(if tag < FIRST_CUSTOM then Leaf(tag, toks[1].data) else Custom(tag, toks[1].data), toks[2..], t))
  }

  /** `load_pair`, `load_callable`: two optional halves, each read by `load_exp_t`. */
  function LoadCell(c: Codec, tag: nat, toks: seq<Token>, t: Target, remap: Remap, level: nat): (r: Option<Loaded>)
    ensures r.Some? ==> |r.value.rest| < |toks|
    decreases |toks|, 2
  {
    if |toks| < 2 || !toks[0].Str? || !toks[1].U8? then None else
    match LoadHalf(c, toks[1].n % 2 == 1, toks[2..], t, remap, level)
    case None => None
    case Some(a) =>
      match LoadHalf(c, toks[1].n / 2 % 2 == 1, a.rest, a.target, remap, level)
      case None => None
      case Some(b) => Some(Loaded(Cell(tag, toks[0].s, a.half, b.half), b.rest, b.target))
  }

  datatype LoadedHalf = LoadedHalf(half: Option<Val>, rest: seq<Token>, target: Target)

  function LoadHalf(c: Codec, present: bool, toks: seq<Token>, t: Target, remap: Remap,
      level: nat): (r: Option<LoadedHalf>)
    ensures r.Some? ==> |r.value.rest| <= |toks|
    decreases |toks|, 1
  {
    if !present then Some(LoadedHalf(None, toks, t)) else
    match LoadVal(c, toks, t, remap, level)
    case None => None
    case Some(x) => Some(LoadedHalf(Some(x.val), x.rest, x.target))
  }

  function LoadGroup(c: Codec, tag: nat, toks: seq<Token>, t: Target, remap: Remap, level: nat): (r: Option<Loaded>)
    ensures r.Some? ==> |r.value.rest| < |toks|
    decreases |toks|, 2
  {
    if toks == [] || !toks[0].U32? then None else
    match LoadAll(c, toks[1..], t, remap, level, toks[0].n)
    case None => None
    case Some(g) => Some(Loaded(Group(tag, g.vals), g.rest, g.target))
  }

  datatype LoadedAll = LoadedAll(vals: seq<Val>, rest: seq<Token>, target: Target)

  function LoadAll(c: Codec, toks: seq<Token>, t: Target, remap: Remap, level: nat, n: nat): (r: Option<LoadedAll>)
    ensures r.Some? ==> |r.value.rest| <= |toks|
    decreases |toks|, 1, n
  {
    if n == 0 then Some(LoadedAll([], toks, t)) else
    match LoadVal(c, toks, t, remap, level)
    case None => None
    case Some(x) =>
      match LoadAll(c, x.rest, x.target, remap, level, n - 1)
      case None => None
      case Some(g) => Some(LoadedAll([x.val] + g.vals, g.rest, g.target))
  }

  /** A type object: a built-in type by its number, a class by its name. */
  function LoadType(toks: seq<Token>, t: Target): (r: Option<Loaded>)
    ensures r.Some? ==> |r.value.rest| < |toks|
  {
    if toks == [] || !toks[0].U32? then None
    else if toks[0].n != BY_NAME then Some(Loaded(TypeObj(toks[0].n), toks[1..], t))
    else if |toks| < 3 || !toks[1].U32? || toks[1].n > MAX_NAME || !toks[2].Str? || |toks[2].s| != toks[1].n then None
    else var claim := Claim(t, toks[2].s); Some(Loaded(TypeObj(claim.0), toks[3..], claim.1))
  }
}
