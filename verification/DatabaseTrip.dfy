/** Saving and loading a database: which records come back, as what, and what happens to everything else. */
module DatabaseTrip {
  import opened Wrappers
  import opened Persist
  import opened PersistTrip
  import opened Database

  // ---- the type table ----

  lemma {:induction false} CustomIdStays(customs: seq<CustomType>, more: seq<CustomType>, name: string)
    requires customs <= more && CustomId(customs, name) != 0
    ensures CustomId(more, name) == CustomId(customs, name)
  {
    if |more| == |customs| {
      assert more == customs;
    } else {
      CustomIdStays(customs, more[..|more| - 1], name);
    }
  }

  predicate Distinct(customs: seq<CustomType>) {
    forall i, j | 0 <= i < j < |customs| :: customs[i].name != customs[j].name
  }

  lemma {:induction false} RegisterDistinct(customs: seq<CustomType>, types: seq<CustomType>)
    requires FIRST_CUSTOM + |customs| <= TYPE_CAP && Distinct(customs)
    ensures Distinct(Register(customs, types))
    decreases |types|
  {
    if types != [] {
      if CustomId(customs, types[0].name) != 0 || FIRST_CUSTOM + |customs| >= TYPE_CAP {
        RegisterDistinct(customs, types[1..]);
      } else {
        RegisterDistinct(customs + [types[0]], types[1..]);
      }
    }
  }

  predicate HasName(customs: seq<CustomType>, name: string) {
    exists i :: 0 <= i < |customs| && customs[i].name == name
  }

  lemma NameSnoc(customs: seq<CustomType>, t: CustomType, name: string)
    ensures HasName(customs + [t], name) <==> HasName(customs, name) || t.name == name
  {
    var all := customs + [t];
    assert all[|customs|] == t;
    if i :| 0 <= i < |customs| && customs[i].name == name {
      assert all[i] == customs[i];
    }
  }

  lemma NameCons(t: CustomType, types: seq<CustomType>, name: string)
    requires types != [] && t == types[0]
    ensures HasName(types, name) <==> t.name == name || HasName(types[1..], name)
  {
    if i :| 0 <= i < |types[1..]| && types[1..][i].name == name {
      assert types[i + 1] == types[1..][i];
    }
    if i :| 0 <= i < |types| && types[i].name == name && i > 0 {
      assert types[1..][i - 1] == types[i];
    }
  }

  lemma CustomIdName(customs: seq<CustomType>, name: string)
    ensures CustomId(customs, name) != 0 <==> HasName(customs, name)
  {
  }

  /** Registering a module's types: the types that were there stay, the new ones are the module's, and each of the
      module's names is there afterwards unless the table of 256 is full. */
  lemma {:induction false} RegisterMeans(customs: seq<CustomType>, types: seq<CustomType>, name: string)
    requires FIRST_CUSTOM + |customs| <= TYPE_CAP
    ensures var r := Register(customs, types);
            && customs <= r && (forall i {:trigger r[i]} | |customs| <= i < |r| :: r[i] in types)
            && (HasName(r, name) ==> HasName(customs, name) || HasName(types, name))
            && (HasName(customs, name) ==> HasName(r, name))
            && (HasName(types, name) ==> HasName(r, name) || 27 + |r| == 256)
    decreases |types|
  {
    hide HasName, CustomId;
    if types == [] {
      NoName(name);
    } else {
      var t, more := types[0], types[1..];
      NameCons(t, types, name);
      CustomIdName(customs, t.name);
      if CustomId(customs, t.name) != 0 || FIRST_CUSTOM + |customs| >= TYPE_CAP {
        RegisterMeans(customs, more, name);
      } else {
        RegisterMeans(customs + [t], more, name);
        NameSnoc(customs, t, name);
        var r := Register(customs + [t], more);
        assert r[|customs|] == t;
      }
    }
  }

  lemma NoName(name: string)
    ensures !HasName([], name)
  {
  }

  /** Asking for a type: it is there afterwards if it was there before; or if modules may be loaded, its module is
      known and has a type of that name, and the table has room; and for no other reason. */
  lemma ProvideMeans(host: Host, customs: seq<CustomType>, name: string, spec: string)
    requires FIRST_CUSTOM + |customs| <= TYPE_CAP
    ensures var r := Provide(host, customs, name, spec);
            var loads := !HasName(customs, name) && !host.safe && spec != "" && spec in host.modules;
            && (!loads ==> r == customs)
            && (HasName(r, name) ==> HasName(customs, name) || (loads && HasName(host.modules[spec], name)))
            && (loads && HasName(host.modules[spec], name) ==> HasName(r, name) || 27 + |r| == 256)
            && (forall i {:trigger r[i]} | |customs| <= i < |r| :: loads && r[i] in host.modules[spec])
  {
    hide HasName, CustomId;
    CustomIdName(customs, name);
    if spec in host.modules {
      RegisterMeans(customs, host.modules[spec], name);
    }
  }

  /** The types here once the first `k` types of there have been asked for. */
  function Provided(host: Host, s: Session, k: nat, customs: seq<CustomType>): (r: seq<CustomType>)
    requires k <= |s.customs| && FIRST_CUSTOM + |customs| <= TYPE_CAP
    ensures customs <= r && FIRST_CUSTOM + |r| <= TYPE_CAP
  {
    if k == 0 then customs
    else Provide(host, Provided(host, s, k - 1, customs), s.customs[k - 1].name, s.customs[k - 1].spec)
  }

  /** The remap table after the first `k` entries. */
  function TableRemap(host: Host, s: Session, k: nat, customs: seq<CustomType>): Remap
    requires k <= |s.customs| && FIRST_CUSTOM + |customs| <= TYPE_CAP
  {
    if k == 0 then map[]
    else Noted(TableRemap(host, s, k - 1, customs), FIRST_CUSTOM + k - 1,
               CustomId(Provided(host, s, k, customs), s.customs[k - 1].name))
  }

  predicate NameFits(t: CustomType) {
    |t.name| <= 0x2000_0000 && |t.spec| <= 0x2000_0000
  }

  predicate NamesFit(s: Session, k: nat)
    requires k <= |s.customs|
  {
    forall i {:trigger s.customs[i]} | k <= i < |s.customs| :: NameFits(s.customs[i])
  }

  lemma EntryTrip(host: Host, s: Session, k: nat, customs: seq<CustomType>, rest: seq<Token>)
    requires k < |s.customs| && FIRST_CUSTOM + |customs| <= TYPE_CAP
    ensures var n := |s.customs|;
            LoadTable(host, DumpTable(s, k) + rest, n - k, Provided(host, s, k, customs),
                TableRemap(host, s, k, customs))
            == if NameFits(s.customs[k])
               then LoadTable(host, DumpTable(s, k + 1) + rest, n - (k + 1), Provided(host, s, k + 1, customs),
                              TableRemap(host, s, k + 1, customs))
               else None
  {
    hide Provide, Noted, CustomId;
    var toks := DumpTable(s, k) + rest;
    assert toks[0] == U16(FIRST_CUSTOM + k) && toks[1] == Str(s.customs[k].name) && toks[2] == Str(s.customs[k].spec);
    assert toks[3..] == DumpTable(s, k + 1) + rest;
  }

  lemma TableEnd(host: Host, s: Session, customs: seq<CustomType>, remap: Remap, rest: seq<Token>)
    requires FIRST_CUSTOM + |customs| <= TYPE_CAP
    ensures LoadTable(host, DumpTable(s, |s.customs|) + rest, 0, customs, remap)
        == Some(LoadedTable(rest, customs, remap))
  {
    assert DumpTable(s, |s.customs|) + rest == rest;
  }

  /** A written table reads back as `TableRemap`. */
  lemma {:induction false} TableTrip(host: Host, s: Session, k: nat, customs: seq<CustomType>, rest: seq<Token>)
    requires k <= |s.customs| && FIRST_CUSTOM + |customs| <= TYPE_CAP
    ensures var n := |s.customs|;
            LoadTable(host, DumpTable(s, k) + rest, n - k, Provided(host, s, k, customs),
                TableRemap(host, s, k, customs))
            == if NamesFit(s, k) then Some(LoadedTable(rest, Provided(host, s, n, customs),
                TableRemap(host, s, n, customs)))
               else None
    decreases |s.customs| - k
  {
    hide NameFits, Provided, TableRemap, DumpTable, LoadTable;
    if k == |s.customs| {
      TableEnd(host, s, Provided(host, s, k, customs), TableRemap(host, s, k, customs), rest);
    } else {
      EntryTrip(host, s, k, customs, rest);
      TableTrip(host, s, k + 1, customs, rest);
    }
  }

  lemma {:induction false} ProvidedGrows(host: Host, s: Session, j: nat, k: nat, customs: seq<CustomType>)
    requires j <= k <= |s.customs| && FIRST_CUSTOM + |customs| <= TYPE_CAP
    ensures Provided(host, s, j, customs) <= Provided(host, s, k, customs)
  {
    if j < k {
      ProvidedGrows(host, s, j, k - 1, customs);
    }
  }

  lemma {:induction false} ProvidedDistinct(host: Host, s: Session, k: nat, customs: seq<CustomType>)
    requires k <= |s.customs| && FIRST_CUSTOM + |customs| <= TYPE_CAP && Distinct(customs)
    ensures Distinct(Provided(host, s, k, customs))
  {
    if k > 0 {
      ProvidedDistinct(host, s, k - 1, customs);
      var before := Provided(host, s, k - 1, customs);
      if s.customs[k - 1].spec in host.modules {
        RegisterDistinct(before, host.modules[s.customs[k - 1].spec]);
      }
    }
  }

  /** The table's entry for a type of there: its id here at the time it was asked for, which it keeps. */
  lemma {:induction false} TableRemapAt(host: Host, s: Session, k: nat, customs: seq<CustomType>, i: nat)
    requires i < k <= |s.customs| && FIRST_CUSTOM + |customs| <= TYPE_CAP && FIRST_CUSTOM + |s.customs| <= TYPE_CAP
    ensures var id := Remapped(TableRemap(host, s, k, customs), FIRST_CUSTOM + i);
            && id == CustomId(Provided(host, s, i + 1, customs), s.customs[i].name)
            && (id != 0 ==> id == CustomId(Provided(host, s, k, customs), s.customs[i].name))
  {
    hide Provide, CustomId;
    if i < k - 1 {
      TableRemapAt(host, s, k - 1, customs, i);
    }
    ProvidedGrows(host, s, i + 1, k, customs);
    if CustomId(Provided(host, s, i + 1, customs), s.customs[i].name) != 0 {
      CustomIdStays(Provided(host, s, i + 1, customs), Provided(host, s, k, customs), s.customs[i].name);
    }
  }

  /** The target with the types that the table brought in. */
  function Equipped(host: Host, s: Session, t: Target): Target
    requires SessionOk(t.session)
  {
    t.(session := t.session.(customs := Provided(host, s, |s.customs|, t.session.customs)))
  }

  function Table(host: Host, s: Session, t: Target): Remap
    requires SessionOk(t.session)
  {
    TableRemap(host, s, |s.customs|, t.session.customs)
  }

  /** Every entry of the table that is not 0 is the id of the type of the same name. */
  lemma TableIsOk(host: Host, s: Session, t: Target)
    requires SessionOk(s) && SessionOk(t.session)
    ensures SessionOk(Equipped(host, s, t).session) && RemapOk(s, Equipped(host, s, t).session, Table(host, s, t))
  {
    hide RemapAt, Provided, TableRemap;
    ProvidedDistinct(host, s, |s.customs|, t.session.customs);
    forall i: nat | i < |s.customs| ensures RemapAt(s, Equipped(host, s, t).session, Table(host, s, t), i) {
      TableIsOkAt(host, s, t, i);
    }
  }

  lemma TableIsOkAt(host: Host, s: Session, t: Target, i: nat)
    requires SessionOk(s) && SessionOk(t.session) && i < |s.customs|
    ensures RemapAt(s, Equipped(host, s, t).session, Table(host, s, t), i)
  {
    hide Provided, TableRemap, CustomId, Remapped;
    TableRemapAt(host, s, |s.customs|, t.session.customs, i);
  }

  /** A type that is registered here is found, whatever the modules do; in safe mode no other is. */
  lemma RegisteredIsFound(host: Host, s: Session, t: Target, i: nat)
    requires SessionOk(s) && SessionOk(t.session) && i < |s.customs|
    ensures var there := CustomId(t.session.customs, s.customs[i].name);
            var here := Remapped(Table(host, s, t), FIRST_CUSTOM + i);
            (there != 0 || host.safe ==> here == there) && (host.safe ==> Equipped(host, s, t) == t)
  {
    hide CustomId;
    TableRemapAt(host, s, |s.customs|, t.session.customs, i);
    var customs := Provided(host, s, i + 1, t.session.customs);
    if CustomId(t.session.customs, s.customs[i].name) != 0 {
      CustomIdStays(t.session.customs, customs, s.customs[i].name);
    }
    if host.safe {
      SafeProvides(host, s, i + 1, t.session.customs);
      SafeProvides(host, s, |s.customs|, t.session.customs);
    }
  }

  lemma {:induction false} SafeProvides(host: Host, s: Session, k: nat, customs: seq<CustomType>)
    requires k <= |s.customs| && FIRST_CUSTOM + |customs| <= TYPE_CAP && host.safe
    ensures Provided(host, s, k, customs) == customs
  {
    if k > 0 {
      SafeProvides(host, s, k - 1, customs);
    }
  }

  // ---- records ----

  predicate Fits(c: Codec, s: Session, r: Record, u: Session, remap: Remap) {
    Reads(c, s, r.val, u, remap, 0) && |r.key| <= if r.home.Lisp? then 0x100_0000 else 0x2000_0000
  }

  predicate AllFit(c: Codec, s: Session, rs: seq<Record>, u: Session, remap: Remap) {
    forall i {:trigger rs[i]} | 0 <= i < |rs| :: Fits(c, s, rs[i], u, remap)
  }

  lemma FitsStays(c: Codec, s: Session, r: Record, u: Session, u': Session, remap: Remap)
    requires u.customs == u'.customs
    ensures Fits(c, s, r, u, remap) <==> Fits(c, s, r, u', remap)
  {
    WelcomeStays(c, s, r.val, u, u', remap);
  }

  lemma AllFitStays(c: Codec, s: Session, rs: seq<Record>, u: Session, u': Session, remap: Remap)
    requires u.customs == u'.customs
    ensures AllFit(c, s, rs, u, remap) <==> AllFit(c, s, rs, u', remap)
  {
    hide Fits;
    forall i | 0 <= i < |rs| ensures Fits(c, s, rs[i], u, remap) <==> Fits(c, s, rs[i], u', remap) {
      FitsStays(c, s, rs[i], u, u', remap);
    }
  }

  lemma AllFitParts(c: Codec, s: Session, a: seq<Record>, b: seq<Record>, u: Session, remap: Remap)
    ensures AllFit(c, s, a + b, u, remap) <==> AllFit(c, s, a, u, remap) && AllFit(c, s, b, u, remap)
  {
    hide Fits;
    var all := a + b;
    if AllFit(c, s, all, u, remap) {
      forall i | 0 <= i < |a| ensures Fits(c, s, a[i], u, remap) {
        assert all[i] == a[i];
      }
      forall i | 0 <= i < |b| ensures Fits(c, s, b[i], u, remap) {
        assert all[|a| + i] == b[i];
      }
    }
  }

  /** The record's value came back as `x`, and was put where the record belongs. */
  ghost predicate Landed(s: Session, r: Record, t: Target, m: Target, now: int, x: Loaded) {
    Back(s, r.val, t, x.rest, x) && m == Put(x.target, r.home, r.key, x.val, r.stamp, now)
  }

  ghost predicate Step(s: Session, r: Record, t: Target, m: Target, now: int) {
    exists x :: Landed(s, r, t, m, now, x)
  }

  /** The records landed one after the other. */
  ghost predicate Replay(s: Session, rs: seq<Record>, t: Target, u: Target, now: int) {
    if rs == [] then u == t else exists m :: Step(s, rs[0], t, m, now) && Replay(s, rs[1..], m, u, now)
  }

  lemma {:induction false} ReplayTrans(s: Session, a: seq<Record>, b: seq<Record>, t: Target, u: Target, w: Target,
      now: int)
    requires Replay(s, a, t, u, now) && Replay(s, b, u, w, now)
    ensures Replay(s, a + b, t, w, now)
  {
    hide Step;
    if a == [] {
      assert a + b == b;
    } else {
      var m :| Step(s, a[0], t, m, now) && Replay(s, a[1..], m, u, now);
      ReplayTrans(s, a[1..], b, m, u, w, now);
      assert (a + b)[0] == a[0] && (a + b)[1..] == a[1..] + b;
    }
  }

  predicate RecordOk(c: Codec, s: Session, home: Home, r: Record) {
    r.home == home && Known(c, s, r.val)
  }

  lemma RecordTrip(c: Codec, s: Session, r: Record, t: Target, remap: Remap, now: int, rest: seq<Token>)
    requires Ready(c, s, t, remap) && Known(c, s, r.val) && DumpRecord(c, s, r).Some?
    ensures var toks := DumpRecord(c, s, r).value + rest;
            var l := LoadRecord(c, r.home, toks[1..], t, remap, now);
            && toks[0] == U8(RECORD)
            && (l.Some? <==> Fits(c, s, r, t.session, remap))
            && (l.Some? ==>
                l.value.rest == rest && Step(s, r, t, l.value.target, now) && Ready(c, s, l.value.target, remap))
  {
    hide Ready, Known, LoadVal, DumpVal, Back, Welcome, Height;
    var toks := DumpRecord(c, s, r).value + rest;
    var tail := [Str(r.key)] + rest;
    var inner := DumpVal(c, s, r.val).value + tail;
    assert toks[1..] == (if r.home.Lisp? then [] else [I64(r.stamp)]) + inner;
    assert (if r.home.Resp? then toks[1..][1..] else toks[1..]) == inner;
    ValueTrip(c, s, r.val, t, remap, 0, tail);
    var v := LoadVal(c, inner, t, remap, 0);
    if v.Some? {
      BackReady(c, s, r, t, remap, tail, v.value);
      var m := Put(v.value.target, r.home, r.key, v.value.val, r.stamp, now);
      assert tail[0] == Str(r.key) && tail[1..] == rest;
      PutReady(c, s, v.value.target, r, v.value.val, remap, now);
      BackAnyRest(s, r.val, t, tail, v.value);
      assert Landed(s, r, t, m, now, v.value);
    }
  }

  lemma BackAnyRest(s: Session, v: Val, t: Target, rest: seq<Token>, x: Loaded)
    requires Back(s, v, t, rest, x)
    ensures x.rest == rest && Back(s, v, t, x.rest, x)
  {
  }

  lemma BackReady(c: Codec, s: Session, r: Record, t: Target, remap: Remap, rest: seq<Token>, x: Loaded)
    requires Ready(c, s, t, remap) && Back(s, r.val, t, rest, x)
    ensures Ready(c, s, x.target, remap)
  {
    ReadyStays(c, s, t, x.target, remap);
  }

  lemma PutReady(c: Codec, s: Session, t: Target, r: Record, w: Val, remap: Remap, now: int)
    requires Ready(c, s, t, remap)
    ensures Ready(c, s, Put(t, r.home, r.key, w, r.stamp, now), remap)
  {
  }

  lemma StepCustoms(s: Session, r: Record, t: Target, m: Target, now: int)
    requires Step(s, r, t, m, now)
    ensures m.session.customs == t.session.customs && t.session.classes <= m.session.classes && SessionOk(m.session)
  {
    var x :| Landed(s, r, t, m, now, x);
  }

  lemma {:induction false} RecordsTrip(
    c: Codec, s: Session, home: Home, rs: seq<Record>, t: Target, remap: Remap, now: int, n: nat, rest: seq<Token>)
    requires Ready(c, s, t, remap) && DumpRecords(c, s, rs).Some?
    requires forall i {:trigger rs[i]} | 0 <= i < |rs| :: RecordOk(c, s, home, rs[i])
    ensures var r := LoadRecords(c, home, DumpRecords(c, s, rs).value + ([U8(END)] + rest), t, remap, now, n);
            && (r.Some? <==> AllFit(c, s, rs, t.session, remap))
            && (r.Some? ==> r.value.rest == rest && r.value.count == n + |rs| && Replay(s, rs, t, r.value.target, now)
                            && Ready(c, s, r.value.target, remap)
                              && r.value.target.session.customs == t.session.customs)
    decreases |rs|
  {
    hide Ready, Known, LoadRecord, DumpRecord, Fits, Step;
    var tail := [U8(END)] + rest;
    var toks := DumpRecords(c, s, rs).value + tail;
    if rs == [] {
      assert toks == tail && tail[1..] == rest;
    } else {
      var more := DumpRecords(c, s, rs[1..]).value + tail;
      assert toks == DumpRecord(c, s, rs[0]).value + more;
      assert RecordOk(c, s, home, rs[0]);
      RecordTrip(c, s, rs[0], t, remap, now, more);
      AllFitParts(c, s, [rs[0]], rs[1..], t.session, remap);
      assert [rs[0]] + rs[1..] == rs;
      OneFits(c, s, rs[0], t.session, remap);
      var l := LoadRecord(c, home, toks[1..], t, remap, now);
      if l.Some? {
        StepCustoms(s, rs[0], t, l.value.target, now);
        AllFitStays(c, s, rs[1..], t.session, l.value.target.session, remap);
        RecordsTrip(c, s, home, rs[1..], l.value.target, remap, now, n + 1, rest);
      }
    }
  }

  lemma OneFits(c: Codec, s: Session, r: Record, u: Session, remap: Remap)
    ensures AllFit(c, s, [r], u, remap) <==> Fits(c, s, r, u, remap)
  {
    hide Fits;
    assert [r][0] == r;
  }

  // ---- sections ----

  function Code(home: Home): nat {
    if home.Lisp? then LISP else RESP
  }

  function Added(home: Home, x: Counts, n: nat): Counts {
    if home.Lisp? then x.(lisp := x.lisp + n) else x.(resp := x.resp + n)
  }

  /** One section, then the others. */
  lemma SectionTrip(c: Codec, s: Session, home: Home, rs: seq<Record>, t: Target, remap: Remap, now: int, x: Counts,
      rest: seq<Token>)
    requires Ready(c, s, t, remap) && DumpRecords(c, s, rs).Some? && x.target == t
    requires forall i {:trigger rs[i]} | 0 <= i < |rs| :: RecordOk(c, s, home, rs[i])
    ensures var toks := DumpSection(c, s, Code(home), rs).value + rest;
            var r := LoadRecords(c, home, DumpRecords(c, s, rs).value + ([U8(END)] + rest), t, remap, now, 0);
            && (r.Some? <==> AllFit(c, s, rs, t.session, remap))
            && (r.Some? ==> Replay(s, rs, t, r.value.target, now) && Ready(c, s, r.value.target, remap)
                            && r.value.target.session.customs == t.session.customs)
            && LoadSections(c, toks, t, remap, now, x.lisp, x.resp)
               == if r.None? then None
                  else var y := Added(home, x, |rs|); LoadSections(c, rest, r.value.target, remap, now, y.lisp, y.resp)
  {
    hide Ready, LoadRecords, DumpRecords, AllFit, Replay;
    var inner := DumpRecords(c, s, rs).value + ([U8(END)] + rest);
    var toks := DumpSection(c, s, Code(home), rs).value + rest;
    assert toks[0] == U8(Code(home)) && toks[1..] == inner;
    RecordsTrip(c, s, home, rs, t, remap, now, 0, rest);
  }
}
