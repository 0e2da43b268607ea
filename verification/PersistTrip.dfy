/** What reading back a written value gives: the value of the same names, exactly when it can be read at all. */
module PersistTrip {
  import opened Wrappers
  import opened Persist

  /** Every native type and class that the value mentions has, over there, the id with the same name. */
  predicate SameNames(s: Session, v: Val, u: Session, w: Val) {
    match v
    case Leaf(_, _) => w == v
    case Cell(t, name, l, r) =>
      w.Cell? && w.tag == t && w.name == name && SameHalf(s, l, u, w.left) && SameHalf(s, r, u, w.right)
    case Group(t, es) =>
      w.Group? && w.tag == t && |w.elems| == |es| && forall i | 0 <= i < |es| :: SameNames(s, es[i], u, w.elems[i])
    case Custom(id, d) =>
      w.Custom? && w.data == d && CustomOf(s, id).Some? && CustomOf(u, w.id).Some?
      && CustomOf(u, w.id).value.name == CustomOf(s, id).value.name
    case TypeObj(id) =>
      if id < USER_MIN then w == v else w.TypeObj? && ClassOf(s, id).Some? && ClassOf(u, w.id) == ClassOf(s, id)
  }

  predicate SameHalf(s: Session, o: Option<Val>, u: Session, p: Option<Val>) {
    if o.None? then p.None? else p.Some? && SameNames(s, o.value, u, p.value)
  }

  function Max(a: nat, b: nat): nat {
    if a < b then b else a
  }

  /** How deep `load_exp_t` nests on the value: every half of a pair counts, so a list is as deep as it is long. */
  function Height(v: Val): nat {
    match v
    case Leaf(_, _) => 1
    case Cell(_, _, l, r) => 1 + Max(HeightHalf(l), HeightHalf(r))
    case Group(_, es) => 1 + HeightFrom(v, 0)
    case Custom(_, _) => 1
    case TypeObj(_) => 0
  }

  function HeightHalf(o: Option<Val>): nat {
    if o.None? then 0 else Height(o.value)
  }

  function HeightFrom(v: Val, k: nat): nat
    requires v.Group? && k <= |v.elems|
    decreases v, |v.elems| - k
  {
    if k == |v.elems| then 0 else Max(Height(v.elems[k]), HeightFrom(v, k + 1))
  }

  /** Everything that the value mentions is there to load: its types can be read, its native types have an id
      over there, and its class names are not too long. */
  predicate Welcome(c: Codec, s: Session, v: Val, u: Session, remap: Remap) {
    match v
    case Leaf(t, _) => t in c.loads
    case Cell(t, _, l, r) => t in c.loads && WelcomeHalf(c, s, l, u, remap) && WelcomeHalf(c, s, r, u, remap)
    case Group(t, es) => t in c.loads && forall i | 0 <= i < |es| :: Welcome(c, s, es[i], u, remap)
    case Custom(id, _) => Remapped(remap, id) != 0 && Loadable(c, u, Remapped(remap, id))
    case TypeObj(id) => ClassOf(s, id).Some? ==> |ClassOf(s, id).value| <= 4096
  }

  predicate WelcomeHalf(c: Codec, s: Session, o: Option<Val>, u: Session, remap: Remap) {
    o.Some? ==> Welcome(c, s, o.value, u, remap)
  }

  /** Where the table sends the dumping process's native type `i`: nowhere, or to the type of the same name. */
  predicate RemapAt(s: Session, u: Session, remap: Remap, i: nat)
    requires i < |s.customs|
  {
    var id := Remapped(remap, FIRST_CUSTOM + i);
    id == 0 || (CustomOf(u, id).Some? && CustomOf(u, id).value.name == s.customs[i].name)
  }

  predicate RemapOk(s: Session, u: Session, remap: Remap) {
    forall i: nat {:trigger RemapAt(s, u, remap, i)} | i < |s.customs| :: RemapAt(s, u, remap, i)
  }

  /** The value holds the class of that name as a type object. */
  predicate Mentions(s: Session, v: Val, name: string)
    decreases v, 1, 0
  {
    match v
    case Cell(_, _, l, r) => MentionsHalf(s, l, name) || MentionsHalf(s, r, name)
    case Group(_, _) => MentionsFrom(s, v, 0, name)
    case TypeObj(id) => ClassOf(s, id) == Some(name)
    case _ => false
  }

  predicate MentionsHalf(s: Session, o: Option<Val>, name: string)
    decreases o, 0
  {
    o.Some? && Mentions(s, o.value, name)
  }

  predicate MentionsFrom(s: Session, v: Val, k: nat, name: string)
    requires v.Group? && k <= |v.elems|
    decreases v, 0, |v.elems| - k
  {
    k < |v.elems| && (Mentions(s, v.elems[k], name) || MentionsFrom(s, v, k + 1, name))
  }

  // ---- what loading a value may change ----

  /** The classes that were made on the way. */
  function Claimed(t: Target, u: Target): seq<string> {
    if |t.session.classes| <= |u.session.classes| then u.session.classes[|t.session.classes|..] else []
  }

  predicate SameBinding(t: Target, u: Target, k: string) {
    (k in t.env <==> k in u.env) && (k in t.env ==> u.env[k] == t.env[k])
  }

  /** Every class that was made is one of these. */
  ghost predicate ClaimsOf(t: Target, u: Target, names: iset<string>) {
    forall name {:trigger name in Claimed(t, u)} | name in Claimed(t, u) :: name in names
  }

  ghost function Mentioned(s: Session, v: Val): iset<string> {
    iset name | Mentions(s, v, name)
  }

  ghost function MentionedHalf(s: Session, o: Option<Val>): iset<string> {
    iset name | MentionsHalf(s, o, name)
  }

  ghost function MentionedFrom(s: Session, v: Val, k: nat): iset<string>
    requires v.Group? && k <= |v.elems|
  {
    iset name | MentionsFrom(s, v, k, name)
  }

  lemma ClaimsTrans(t: Target, u: Target, w: Target, a: iset<string>, b: iset<string>, both: iset<string>)
    requires t.session.classes <= u.session.classes <= w.session.classes
    requires ClaimsOf(t, u, a) && ClaimsOf(u, w, b) && a <= both && b <= both
    ensures ClaimsOf(t, w, both)
  {
    ClaimedParts(t, u, w);
  }

  /** The name is bound to the class of that name. */
  predicate Bound(u: Target, k: string) {
    k in u.env && u.env[k].val.TypeObj? && ClassOf(u.session, u.env[k].val.id) == Some(k)
  }

  /** Native types, earlier classes and the keyspace stay; so does every binding but those of new classes, which
      are bound. */
  ghost predicate Kept(t: Target, u: Target) {
    && u.session.customs == t.session.customs && t.session.classes <= u.session.classes && u.kv == t.kv
    && (forall k {:trigger SameBinding(t, u, k)} | k !in Claimed(t, u) :: SameBinding(t, u, k))
    && (forall k {:trigger Bound(u, k)} | k in Claimed(t, u) :: Bound(u, k))
  }

  lemma ClaimedParts(t: Target, u: Target, w: Target)
    requires t.session.classes <= u.session.classes <= w.session.classes
    ensures Claimed(t, w) == Claimed(t, u) + Claimed(u, w)
  {
  }

  lemma KeptTrans(t: Target, u: Target, w: Target)
    requires Kept(t, u) && Kept(u, w)
    ensures Kept(t, w)
  {
    ClaimedParts(t, u, w);
    forall k | k !in Claimed(t, w) ensures SameBinding(t, w, k) {
      assert SameBinding(t, u, k) && SameBinding(u, w, k);
    }
    forall k | k in Claimed(t, w) ensures Bound(w, k) {
      if k !in Claimed(u, w) {
        assert SameBinding(u, w, k) && Bound(u, k);
      }
    }
  }

  lemma KeptRefl(t: Target)
    ensures Kept(t, t)
  {
    assert Claimed(t, t) == [];
  }

  /** A class is found by its name, where it was registered first; if it is not there it gets the next id, and the
      name is bound to it with the time stamp that the name had. */
  lemma ClaimMeans(t: Target, name: string)
    ensures var r := Claim(t, name);
            if name in t.session.classes then
              r.1 == t && USER_MIN <= r.0 < USER_MIN + |t.session.classes|
                && t.session.classes[r.0 - USER_MIN] == name
            else
              && r.0 == 100000 + |t.session.classes|
              && r.1 == Target(Session(t.session.customs, t.session.classes + [name]),
                               t.env[name := Binding(TypeObj(r.0), if name in t.env then t.env[name].timestamp else 0)],
                               t.kv)
  {
    assert t.session.classes[0..] == t.session.classes;
  }

  lemma ClaimKept(t: Target, name: string)
    requires SessionOk(t.session)
    ensures var r := Claim(t, name);
            && Kept(t, r.1) && SessionOk(r.1.session) && ClassOf(r.1.session, r.0) == Some(name)
            && ClaimsOf(t, r.1, iset{name})
  {
    var r := Claim(t, name);
    ClaimMeans(t, name);
    hide Claim;
    if r.1 == t {
      KeptRefl(t);
    } else {
      assert Claimed(t, r.1) == [name];
      forall k | k !in Claimed(t, r.1) ensures SameBinding(t, r.1, k) {
        assert k != name;
      }
      assert name !in t.session.classes[0..];
    }
  }

  lemma {:induction false} NamesStay(s: Session, v: Val, u: Session, u': Session, w: Val)
    requires SameNames(s, v, u, w) && u.customs == u'.customs && u.classes <= u'.classes
    ensures SameNames(s, v, u', w)
  {
    match v
    case Cell(_, _, l, r) =>
      if l.Some? {
        NamesStay(s, l.value, u, u', w.left.value);
      }
      if r.Some? {
        NamesStay(s, r.value, u, u', w.right.value);
      }
    case Group(_, es) =>
      forall i | 0 <= i < |es| ensures SameNames(s, es[i], u', w.elems[i]) {
        NamesStay(s, es[i], u, u', w.elems[i]);
      }
    case _ =>
  }

  lemma {:induction false} WelcomeStays(c: Codec, s: Session, v: Val, u: Session, u': Session, remap: Remap)
    requires u.customs == u'.customs
    ensures Welcome(c, s, v, u, remap) <==> Welcome(c, s, v, u', remap)
  {
    match v
    case Cell(_, _, l, r) =>
      if l.Some? {
        WelcomeStays(c, s, l.value, u, u', remap);
      }
      if r.Some? {
        WelcomeStays(c, s, r.value, u, u', remap);
      }
    case Group(_, es) =>
      forall i | 0 <= i < |es| ensures Welcome(c, s, es[i], u, remap) <==> Welcome(c, s, es[i], u', remap) {
        WelcomeStays(c, s, es[i], u, u', remap);
      }
    case _ =>
  }

  lemma RemapStays(s: Session, u: Session, u': Session, remap: Remap)
    requires RemapOk(s, u, remap) && u.customs == u'.customs
    ensures RemapOk(s, u', remap)
  {
    forall i: nat | i < |s.customs| ensures RemapAt(s, u', remap, i) {
      assert RemapAt(s, u, remap, i);
    }
  }

  // ---- the round trip of a value ----

  /** The value can be read, at this nesting level. */
  predicate Reads(c: Codec, s: Session, v: Val, u: Session, remap: Remap, level: nat) {
    Welcome(c, s, v, u, remap) && level + Height(v) <= 16384
  }

  /** What the two processes must have in common before a value is read. */
  predicate Ready(c: Codec, s: Session, t: Target, remap: Remap) {
    CodecOk(c) && SessionOk(s) && SessionOk(t.session) && RemapOk(s, t.session, remap)
  }

  /** The value came back under the same names, and nothing else changed but new classes. */
  ghost predicate Back(s: Session, v: Val, t: Target, rest: seq<Token>, x: Loaded) {
    && x.rest == rest && Kept(t, x.target) && SessionOk(x.target.session) && SameNames(s, v, x.target.session, x.val)
    && ClaimsOf(t, x.target, Mentioned(s, v))
  }

  ghost predicate HalfBack(s: Session, o: Option<Val>, t: Target, rest: seq<Token>, x: LoadedHalf) {
    && x.rest == rest && Kept(t, x.target) && SessionOk(x.target.session) && SameHalf(s, o, x.target.session, x.half)
    && ClaimsOf(t, x.target, MentionedHalf(s, o))
  }

  lemma LeafTrip(c: Codec, s: Session, v: Val, t: Target, remap: Remap, level: nat, rest: seq<Token>)
    requires Ready(c, s, t, remap) && v.Leaf? && Known(c, s, v) && DumpVal(c, s, v).Some?
    ensures var r := LoadVal(c, DumpVal(c, s, v).value + rest, t, remap, level);
            (r.Some? <==> Reads(c, s, v, t.session, remap, level)) && (r.Some? ==> Back(s, v, t, rest, r.value))
  {
    var toks := DumpVal(c, s, v).value + rest;
    assert toks[0] == U16(v.tag) && toks[1] == Data(v.data) && toks[2..] == rest;
    KeptRefl(t);
  }

  lemma CustomTrip(c: Codec, s: Session, v: Val, t: Target, remap: Remap, level: nat, rest: seq<Token>)
    requires Ready(c, s, t, remap) && v.Custom? && Known(c, s, v) && DumpVal(c, s, v).Some?
    ensures var r := LoadVal(c, DumpVal(c, s, v).value + rest, t, remap, level);
            (r.Some? <==> Reads(c, s, v, t.session, remap, level)) && (r.Some? ==> Back(s, v, t, rest, r.value))
  {
    var toks := DumpVal(c, s, v).value + rest;
    assert toks[0] == U16(v.id) && toks[1] == Data(v.data) && toks[2..] == rest;
    assert RemapAt(s, t.session, remap, v.id - FIRST_CUSTOM);
    KeptRefl(t);
  }

  lemma TypeTrip(c: Codec, s: Session, v: Val, t: Target, remap: Remap, level: nat, rest: seq<Token>)
    requires Ready(c, s, t, remap) && v.TypeObj? && Known(c, s, v) && DumpVal(c, s, v).Some? && level <= LOAD_DEPTH
    ensures var r := LoadVal(c, DumpVal(c, s, v).value + rest, t, remap, level);
            (r.Some? <==> Reads(c, s, v, t.session, remap, level)) && (r.Some? ==> Back(s, v, t, rest, r.value))
  {
    var toks := DumpVal(c, s, v).value + rest;
    assert toks[0] == U16(TYPE_TAG);
    KeptRefl(t);
    if v.id < USER_MIN {
      assert toks[1..][0] == U32(v.id) && toks[1..][1..] == rest;
    } else {
      var name := ClassOf(s, v.id).value;
      assert toks[1..][0] == U32(BY_NAME) && toks[1..][1] == U32(|name|) && toks[1..][2] == Str(name)
          && toks[1..][3..] == rest;
      ClaimKept(t, name);
    }
  }

  lemma FlagBits(l: Option<Val>, r: Option<Val>)
    ensures Flag(l, r) % 2 == 1 <==> l.Some?
    ensures Flag(l, r) / 2 % 2 == 1 <==> r.Some?
  {
  }

  lemma {:induction false} HalfTrip(c: Codec, s: Session, o: Option<Val>, t: Target, remap: Remap, level: nat,
      rest: seq<Token>)
    requires Ready(c, s, t, remap) && KnownHalf(c, s, o) && DumpHalf(c, s, o).Some? && level <= LOAD_DEPTH
    ensures var r := LoadHalf(c, o.Some?, DumpHalf(c, s, o).value + rest, t, remap, level);
            && (r.Some? <==> WelcomeHalf(c, s, o, t.session, remap) && level + HeightHalf(o) <= LOAD_DEPTH)
            && (r.Some? ==> HalfBack(s, o, t, rest, r.value))
    decreases o, 0, 0
  {
    hide Ready, Known, LoadVal, SessionOk, Kept;
    if o.None? {
      assert DumpHalf(c, s, o).value + rest == rest;
      KeptRefl(t);
      ReadySession(c, s, t, remap);
    } else {
      ValueTrip(c, s, o.value, t, remap, level, rest);
    }
  }

  lemma ReadySession(c: Codec, s: Session, t: Target, remap: Remap)
    requires Ready(c, s, t, remap)
    ensures SessionOk(t.session)
  {
  }

  lemma ReadyStays(c: Codec, s: Session, t: Target, u: Target, remap: Remap)
    requires Ready(c, s, t, remap) && Kept(t, u) && SessionOk(u.session)
    ensures Ready(c, s, u, remap)
  {
    RemapStays(s, t.session, u.session, remap);
  }

  /** `LoadCell` on the two halves, one after the other. */
  lemma CellHalves(c: Codec, s: Session, v: Val, t: Target, remap: Remap, level: nat, rest: seq<Token>)
    requires v.Cell? && DumpHalf(c, s, v.left).Some? && DumpHalf(c, s, v.right).Some?
    ensures var tail := DumpHalf(c, s, v.right).value + rest;
            var a := LoadHalf(c, v.left.Some?, DumpHalf(c, s, v.left).value + tail, t, remap, level);
            var r := LoadCell(c, v.tag, [Str(v.name), U8(Flag(v.left, v.right))]
                + (DumpHalf(c, s, v.left).value + tail), t, remap, level);
            && (a.None? ==> r.None?)
            && (a.Some? && a.value.rest == tail ==>
                  var b := LoadHalf(c, v.right.Some?, tail, a.value.target, remap, level);
                  r == if b.None? then None
                      else Some(Loaded(Cell(v.tag, v.name, a.value.half, b.value.half), b.value.rest, b.value.target)))
  {
    hide LoadHalf, DumpHalf;
    FlagBits(v.left, v.right);
    var inner := DumpHalf(c, s, v.left).value + (DumpHalf(c, s, v.right).value + rest);
    var toks := [Str(v.name), U8(Flag(v.left, v.right))] + inner;
    assert toks[2..] == inner;
  }

  lemma CellBack(s: Session, v: Val, t: Target, tail: seq<Token>, rest: seq<Token>, a: LoadedHalf, b: LoadedHalf)
    requires v.Cell? && HalfBack(s, v.left, t, tail, a) && HalfBack(s, v.right, a.target, rest, b)
    ensures Back(s, v, t, rest, Loaded(Cell(v.tag, v.name, a.half, b.half), b.rest, b.target))
  {
    hide SessionOk;
    KeptTrans(t, a.target, b.target);
    ClaimsTrans(t, a.target, b.target, MentionedHalf(s, v.left), MentionedHalf(s, v.right), Mentioned(s, v));
    if v.left.Some? {
      NamesStay(s, v.left.value, a.target.session, b.target.session, a.half.value);
    }
    assert SameHalf(s, v.left, b.target.session, a.half);
    var w := Cell(v.tag, v.name, a.half, b.half);
    assert SameHalf(s, v.left, b.target.session, w.left) && SameHalf(s, v.right, b.target.session, w.right);
  }

  lemma {:induction false} CellTrip(c: Codec, s: Session, v: Val, t: Target, remap: Remap, level: nat, rest: seq<Token>)
    requires Ready(c, s, t, remap) && v.Cell? && Known(c, s, v) && DumpHalf(c, s, v.left).Some?
        && DumpHalf(c, s, v.right).Some?
    requires level <= LOAD_DEPTH
    ensures var tail := DumpHalf(c, s, v.right).value + rest;
            var r := LoadCell(c, v.tag, [Str(v.name), U8(Flag(v.left, v.right))]
                + (DumpHalf(c, s, v.left).value + tail), t, remap, level);
            && (r.Some? <==> WelcomeHalf(c, s, v.left, t.session, remap) && WelcomeHalf(c, s, v.right, t.session, remap)
                             && level + Max(HeightHalf(v.left), HeightHalf(v.right)) <= LOAD_DEPTH)
            && (r.Some? ==> Back(s, v, t, rest, r.value))
    decreases v, 0, 1
  {
    hide Ready, LoadHalf, LoadCell, DumpHalf, Welcome, SessionOk, Kept;
    var tail := DumpHalf(c, s, v.right).value + rest;
    HalfTrip(c, s, v.left, t, remap, level, tail);
    CellHalves(c, s, v, t, remap, level, rest);
    var a := LoadHalf(c, v.left.Some?, DumpHalf(c, s, v.left).value + tail, t, remap, level);
    if a.Some? {
      ReadyStays(c, s, t, a.value.target, remap);
      HalfTrip(c, s, v.right, a.value.target, remap, level, rest);
      KeptParts(t, a.value.target);
      HalfWelcomeStays(c, s, v.right, t.session, a.value.target.session, remap);
      var b := LoadHalf(c, v.right.Some?, tail, a.value.target, remap, level);
      if b.Some? {
        CellBack(s, v, t, tail, rest, a.value, b.value);
      }
    }
  }

  lemma KeptParts(t: Target, u: Target)
    requires Kept(t, u)
    ensures t.session.customs == u.session.customs && t.session.classes <= u.session.classes
  {
  }

  lemma HalfWelcomeStays(c: Codec, s: Session, o: Option<Val>, u: Session, u': Session, remap: Remap)
    requires u.customs == u'.customs
    ensures WelcomeHalf(c, s, o, u, remap) <==> WelcomeHalf(c, s, o, u', remap)
  {
    if o.Some? {
      WelcomeStays(c, s, o.value, u, u', remap);
    }
  }

  /** A built-in container: its tag is looked up, then its contents are read one level deeper. */
  lemma CellOpens(c: Codec, s: Session, v: Val, t: Target, remap: Remap, level: nat, rest: seq<Token>)
    requires CodecOk(c) && v.Cell? && Known(c, s, v) && DumpVal(c, s, v).Some?
    ensures DumpHalf(c, s, v.left).Some? && DumpHalf(c, s, v.right).Some?
    ensures var inner := DumpHalf(c, s, v.left).value + (DumpHalf(c, s, v.right).value + rest);
            LoadVal(c, DumpVal(c, s, v).value + rest, t, remap, level)
            == if v.tag in c.loads && level < LOAD_DEPTH
                then LoadCell(c, v.tag, [Str(v.name), U8(Flag(v.left, v.right))] + inner, t, remap, level + 1)
               else None
  {
    hide DumpHalf, LoadCell;
    var toks := DumpVal(c, s, v).value + rest;
    var inner := DumpHalf(c, s, v.left).value + (DumpHalf(c, s, v.right).value + rest);
    assert toks[0] == U16(v.tag) && toks[1..] == [Str(v.name), U8(Flag(v.left, v.right))] + inner;
  }

  lemma GroupOpens(c: Codec, s: Session, v: Val, t: Target, remap: Remap, level: nat, rest: seq<Token>)
    requires CodecOk(c) && v.Group? && Known(c, s, v) && DumpVal(c, s, v).Some?
    ensures DumpAll(c, s, v, 0).Some?
    ensures var all := LoadAll(c, DumpAll(c, s, v, 0).value + rest, t, remap, level + 1, |v.elems|);
            LoadVal(c, DumpVal(c, s, v).value + rest, t, remap, level)
            == if v.tag in c.loads && level < LOAD_DEPTH && all.Some?
                then Some(Loaded(Group(v.tag, all.value.vals), all.value.rest, all.value.target))
               else None
  {
    hide DumpAll, LoadAll;
    var toks := DumpVal(c, s, v).value + rest;
    assert toks[0] == U16(v.tag) && toks[1..][0] == U32(|v.elems|)
        && toks[1..][1..] == DumpAll(c, s, v, 0).value + rest;
  }

  /** A written value reads back as the value of the same names, whatever the ids are here and there, exactly
      when everything in it is welcome and it is not nested too deeply. */
  lemma {:induction false} ValueTrip(c: Codec, s: Session, v: Val, t: Target, remap: Remap, level: nat,
      rest: seq<Token>)
    requires Ready(c, s, t, remap) && Known(c, s, v) && DumpVal(c, s, v).Some? && level <= LOAD_DEPTH
    ensures var r := LoadVal(c, DumpVal(c, s, v).value + rest, t, remap, level);
            (r.Some? <==> Reads(c, s, v, t.session, remap, level)) && (r.Some? ==> Back(s, v, t, rest, r.value))
    decreases v, 1, 0
  {
    hide LoadVal, DumpVal, LoadCell, LoadAll, DumpAll, DumpHalf, SessionOk, Kept, RemapOk;
    match v
    case Leaf(_, _) => LeafTrip(c, s, v, t, remap, level, rest);
    case Custom(_, _) => CustomTrip(c, s, v, t, remap, level, rest);
    case TypeObj(_) => TypeTrip(c, s, v, t, remap, level, rest);
    case Cell(_, _, _, _) =>
      CellOpens(c, s, v, t, remap, level, rest);
      if level < LOAD_DEPTH {
        CellTrip(c, s, v, t, remap, level + 1, rest);
      }
    case Group(_, _) =>
      GroupOpens(c, s, v, t, remap, level, rest);
      if level < LOAD_DEPTH {
        AllTrip(c, s, v, 0, t, remap, level + 1, rest);
        AllWelcome(c, s, v, t.session, remap);
      }
  }

  /** The elements from `k` on are welcome. */
  predicate WelcomeFrom(c: Codec, s: Session, v: Val, k: nat, u: Session, remap: Remap)
    requires v.Group? && k <= |v.elems|
    decreases |v.elems| - k
  {
    k == |v.elems| || (Welcome(c, s, v.elems[k], u, remap) && WelcomeFrom(c, s, v, k + 1, u, remap))
  }

  lemma AllWelcome(c: Codec, s: Session, v: Val, u: Session, remap: Remap)
    requires v.Group?
    ensures WelcomeFrom(c, s, v, 0, u, remap) <==> forall i | 0 <= i < |v.elems| :: Welcome(c, s, v.elems[i], u, remap)
  {
    WelcomeEach(c, s, v, 0, u, remap);
  }

  lemma {:induction false} WelcomeEach(c: Codec, s: Session, v: Val, k: nat, u: Session, remap: Remap)
    requires v.Group? && k <= |v.elems|
    ensures WelcomeFrom(c, s, v, k, u, remap) <==> forall i | k <= i < |v.elems| :: Welcome(c, s, v.elems[i], u, remap)
    decreases |v.elems| - k
  {
    hide Welcome;
    if k < |v.elems| {
      WelcomeEach(c, s, v, k + 1, u, remap);
    }
  }

  lemma {:induction false} WelcomeFromStays(c: Codec, s: Session, v: Val, k: nat, u: Session, u': Session, remap: Remap)
    requires v.Group? && k <= |v.elems| && u.customs == u'.customs
    ensures WelcomeFrom(c, s, v, k, u, remap) <==> WelcomeFrom(c, s, v, k, u', remap)
    decreases |v.elems| - k
  {
    hide Welcome;
    if k < |v.elems| {
      WelcomeStays(c, s, v.elems[k], u, u', remap);
      WelcomeFromStays(c, s, v, k + 1, u, u', remap);
    }
  }

  /** The group's elements from `k` on came back under the same names. */
  ghost predicate AllBack(s: Session, v: Val, k: nat, t: Target, rest: seq<Token>, g: LoadedAll) {
    && v.Group? && k <= |v.elems| && |g.vals| == |v.elems| - k
    && g.rest == rest && Kept(t, g.target) && SessionOk(g.target.session)
      && ClaimsOf(t, g.target, MentionedFrom(s, v, k))
    && forall i {:trigger g.vals[i]} | 0 <= i < |g.vals| :: SameNames(s, v.elems[k + i], g.target.session, g.vals[i])
  }

  lemma AllBackNext(s: Session, v: Val, k: nat, t: Target, tail: seq<Token>, rest: seq<Token>, x: Loaded, g: LoadedAll)
    requires v.Group? && k < |v.elems| && Back(s, v.elems[k], t, tail, x) && AllBack(s, v, k + 1, x.target, rest, g)
    ensures AllBack(s, v, k, t, rest, LoadedAll([x.val] + g.vals, g.rest, g.target))
  {
    hide SameNames;
    KeptTrans(t, x.target, g.target);
    ClaimsTrans(t, x.target, g.target, Mentioned(s, v.elems[k]), MentionedFrom(s, v, k + 1), MentionedFrom(s, v, k));
    NamesStay(s, v.elems[k], x.target.session, g.target.session, x.val);
    var all := [x.val] + g.vals;
    forall i | 0 <= i < |all| ensures SameNames(s, v.elems[k + i], g.target.session, all[i]) {
      if i > 0 {
        assert all[i] == g.vals[i - 1] && SameNames(s, v.elems[k + 1 + (i - 1)], g.target.session, g.vals[i - 1]);
      }
    }
  }

  /** One element, then the rest. */
  lemma LoadNext(c: Codec, toks: seq<Token>, tail: seq<Token>, t: Target, remap: Remap, level: nat, n: nat)
    requires n > 0
    ensures var x := LoadVal(c, toks, t, remap, level);
            && (x.None? ==> LoadAll(c, toks, t, remap, level, n).None?)
            && (x.Some? && x.value.rest == tail ==>
                  var g := LoadAll(c, tail, x.value.target, remap, level, n - 1);
                  LoadAll(c, toks, t, remap, level, n)
                  == if g.None? then None
                      else Some(LoadedAll([x.value.val] + g.value.vals, g.value.rest, g.value.target)))
  {
    hide LoadVal;
  }

  lemma {:induction false} AllTrip(c: Codec, s: Session, v: Val, k: nat, t: Target, remap: Remap, level: nat,
      rest: seq<Token>)
    requires v.Group? && k <= |v.elems| && Ready(c, s, t, remap) && Known(c, s, v) && DumpAll(c, s, v, k).Some?
        && level <= LOAD_DEPTH
    ensures var r := LoadAll(c, DumpAll(c, s, v, k).value + rest, t, remap, level, |v.elems| - k);
            && (r.Some? <==> WelcomeFrom(c, s, v, k, t.session, remap) && level + HeightFrom(v, k) <= LOAD_DEPTH)
            && (r.Some? ==> AllBack(s, v, k, t, rest, r.value))
    decreases v, 0, |v.elems| - k, 1
  {
    if k == |v.elems| {
      assert DumpAll(c, s, v, k).value + rest == rest;
      KeptRefl(t);
    } else {
      AllTripNext(c, s, v, k, t, remap, level, rest);
    }
  }

  lemma {:induction false} AllTripNext(c: Codec, s: Session, v: Val, k: nat, t: Target, remap: Remap, level: nat,
      rest: seq<Token>)
    requires v.Group? && k < |v.elems| && Ready(c, s, t, remap) && Known(c, s, v) && DumpAll(c, s, v, k).Some?
        && level <= LOAD_DEPTH
    ensures var r := LoadAll(c, DumpAll(c, s, v, k).value + rest, t, remap, level, |v.elems| - k);
            && (r.Some? <==> WelcomeFrom(c, s, v, k, t.session, remap) && level + HeightFrom(v, k) <= LOAD_DEPTH)
            && (r.Some? ==> AllBack(s, v, k, t, rest, r.value))
    decreases v, 0, |v.elems| - k, 0
  {
    hide Ready, LoadVal, LoadAll, DumpVal, Welcome, SessionOk, Kept, AllBack, SameNames;
    var n, tail := |v.elems| - k, DumpAll(c, s, v, k + 1).value + rest;
    var toks := DumpVal(c, s, v.elems[k]).value + tail;
    assert DumpAll(c, s, v, k).value + rest == toks;
    ValueTrip(c, s, v.elems[k], t, remap, level, tail);
    LoadNext(c, toks, tail, t, remap, level, n);
    var r := LoadVal(c, toks, t, remap, level);
    if r.Some? {
      var x := r.value;
      ReadyStays(c, s, t, x.target, remap);
      KeptParts(t, x.target);
      WelcomeFromStays(c, s, v, k + 1, t.session, x.target.session, remap);
      AllTrip(c, s, v, k + 1, x.target, remap, level, rest);
      var g := LoadAll(c, tail, x.target, remap, level, n - 1);
      if g.Some? {
        AllBackNext(s, v, k, t, tail, rest, x, g.value);
      }
    }
  }

  // ---- long lists ----

  /** A proper list of `n` cells, all with the same head. */
  function LongList(n: nat, head: Val): Val
    requires n > 0
  {
    Cell(PAIR_TAG, "", Some(head), if n == 1 then None else Some(LongList(n - 1, head)))
  }

  lemma {:induction false} LongListPasses(c: Codec, s: Session, n: nat, head: Val, u: Session, remap: Remap)
    requires n > 0 && CodecOk(c) && head.Leaf? && Known(c, s, head) && head.tag in c.dumps && head.tag in c.loads
    ensures var v := LongList(n, head);
            Known(c, s, v) && DumpableList(c, s, v, 0) && Writable(c, s, v) && Height(v) == n + 1
                && Welcome(c, s, v, u, remap)
  {
    var v := LongList(n, head);
    if n > 1 {
      LongListPasses(c, s, n - 1, head, u, remap);
    }
    assert Height(head) == 1 && HeightHalf(v.left) == 1;
    assert if n == 1 then HeightHalf(v.right) == 0 else HeightHalf(v.right) == n;
    assert WelcomeHalf(c, s, v.left, u, remap) && WelcomeHalf(c, s, v.right, u, remap);
  }

  /** The check before writing passes a list of any length, and it is written; reading gives it back exactly
      when it has fewer than 16384 cells. */
  lemma LongListLost(c: Codec, s: Session, n: nat, head: Val, t: Target, remap: Remap, rest: seq<Token>)
    requires n > 0 && Ready(c, s, t, remap) && head.Leaf? && Known(c, s, head) && head.tag in c.dumps
        && head.tag in c.loads
    ensures var v := LongList(n, head);
            && Dumpable(c, s, v, 0) && DumpVal(c, s, v).Some?
            && (LoadVal(c, DumpVal(c, s, v).value + rest, t, remap, 0).Some? <==> n < 16384)
  {
    hide LoadVal, Welcome, RemapOk, SessionOk, Known, Height, Back, DumpVal, DumpableList, Writable;
    var v := LongList(n, head);
    LongListPasses(c, s, n, head, t.session, remap);
    DumpWrites(c, s, v);
    ValueTrip(c, s, v, t, remap, 0, rest);
  }
}
