/** What a saved database does to the process that loads it. */
module DatabaseRestore {
  import opened Wrappers
  import opened Persist
  import opened PersistCheck
  import opened PersistTrip
  import opened Database
  import opened DatabaseTrip

  // ---- when saving and loading succeed ----

  lemma {:induction false} SelectIn(c: Codec, s: Session, rs: seq<Record>, now: int, r: Record)
    ensures r in Select(c, s, rs, now) <==> r in rs && Saved(c, s, r, now)
  {
    hide Saved;
    if rs != [] {
      SelectIn(c, s, rs[1..], now, r);
    }
  }

  /** What is to be saved: a binding marked with a time stamp, an entry without expiry or before it. */
  predicate Due(r: Record, now: int) {
    match r.home
    case Lisp => r.stamp > 0
    case Resp => r.stamp == 0 || now < r.stamp
  }

  /** The records selected are those that are due and that the check passes.  Those that can be written and are
      no more than 512 levels deep are certainly among them, and nothing else is if the check looks into all of
      the value. */
  lemma SelectParts(c: Codec, s: Session, rs: seq<Record>, now: int, r: Record)
    requires CodecOk(c) && Known(c, s, r.val)
    ensures r in Select(c, s, rs, now) ==> r in rs && Due(r, now) && Within(c, r.val, 512)
    ensures r in rs && Due(r, now) && Writable(c, s, r.val) && Within(c, r.val, 512) ==> r in Select(c, s, rs, now)
    ensures Checked(c, r.val) ==> (r in Select(c, s, rs, now) <==>
              r in rs && Due(r, now) && Writable(c, s, r.val) && Within(c, r.val, 512))
  {
    hide Known, Writable, Within, Checked, Dumpable, Select;
    SelectIn(c, s, rs, now, r);
    PassesExactly(c, s, r.val);
  }

  lemma {:induction false} DumpRecordsWrites(c: Codec, s: Session, rs: seq<Record>)
    ensures DumpRecords(c, s, rs).Some? <==> forall i {:trigger rs[i]} | 0 <= i < |rs| :: Writable(c, s, rs[i].val)
  {
    hide Writable, DumpVal;
    if rs != [] {
      DumpWrites(c, s, rs[0].val);
      DumpRecordsWrites(c, s, rs[1..]);
      forall i | 0 < i < |rs| ensures rs[i] == rs[1..][i - 1] {
      }
    }
  }

  /** Saving fails exactly when something that is selected holds something that cannot be written. */
  lemma DumpFails(c: Codec, s: Session, st: Store, now: int)
    ensures Dump(c, s, st, now).None? <==>
              exists r :: (r in Bindings(c, s, st, now) || r in Entries(c, s, st, now)) && !Writable(c, s, r.val)
  {
    hide Writable, Select, DumpRecords;
    DumpRecordsWrites(c, s, Bindings(c, s, st, now));
    DumpRecordsWrites(c, s, Entries(c, s, st, now));
  }

  lemma {:induction false} SelectOk(c: Codec, s: Session, home: Home, rs: seq<Record>, now: int)
    requires forall i {:trigger rs[i]} | 0 <= i < |rs| :: RecordOk(c, s, home, rs[i])
    ensures var saved := Select(c, s, rs, now); forall i {:trigger saved[i]} | 0 <= i < |saved| ::
        RecordOk(c, s, home, saved[i])
  {
    hide RecordOk, Saved;
  }

  function SavedRecords(c: Codec, s: Session, st: Store, now: int): seq<Record> {
    Bindings(c, s, st, now) + Entries(c, s, st, now)
  }

  lemma TrailerLoads(c: Codec, t: Target, remap: Remap, clock: int, lisp: nat, resp: nat)
    ensures LoadSections(c, [U8(END)], t, remap, clock, lisp, resp) == Some(Counts(t, lisp, resp))
  {
  }

  /** The sections of a saved database, read with a table for its types. */
  lemma SectionsTrip(c: Codec, s: Session, st: Store, now: int, t: Target, remap: Remap, clock: int)
    requires Ready(c, s, t, remap) && StoreOk(c, s, st) && Sections(c, s, st, now).Some?
    ensures var r := LoadSections(c, Sections(c, s, st, now).value, t, remap, clock, 0, 0);
            && (r.Some? <==> AllFit(c, s, SavedRecords(c, s, st, now), t.session, remap))
            && (r.Some? ==> r.value.lisp == |Bindings(c, s, st, now)| && r.value.resp == |Entries(c, s, st, now)|
                            && Replay(s, SavedRecords(c, s, st, now), t, r.value.target, clock))
  {
    hide Ready, LoadRecords, LoadSections, DumpRecords, AllFit, Replay, Select, Known;
    var a, b := Bindings(c, s, st, now), Entries(c, s, st, now);
    StoreRecords(c, s, st, now);
    var second := if st.kv.Some? then DumpSection(c, s, RESP, b).value else [];
    var rest := second + [U8(END)];
    assert Sections(c, s, st, now).value == DumpSection(c, s, LISP, a).value + rest;
    SectionTrip(c, s, Lisp, a, t, remap, clock, Counts(t, 0, 0), rest);
    AllFitParts(c, s, a, b, t.session, remap);
    var l := LoadRecords(c, Lisp, DumpRecords(c, s, a).value + ([U8(END)] + rest), t, remap, clock, 0);
    if l.Some? {
      var m := l.value.target;
      AllFitStays(c, s, b, t.session, m.session, remap);
      RespTrip(c, s, st, now, t, m, remap, clock, |a|);
    }
  }

  lemma StoreRecords(c: Codec, s: Session, st: Store, now: int)
    requires StoreOk(c, s, st)
    ensures var a := Bindings(c, s, st, now); forall i {:trigger a[i]} | 0 <= i < |a| :: RecordOk(c, s, Lisp, a[i])
    ensures var b := Entries(c, s, st, now); forall i {:trigger b[i]} | 0 <= i < |b| :: RecordOk(c, s, Resp, b[i])
  {
    hide Select, Known;
    SelectOk(c, s, Lisp, st.env, now);
    if st.kv.Some? {
      SelectOk(c, s, Resp, st.kv.value, now);
    }
  }

  lemma RespTrip(c: Codec, s: Session, st: Store, now: int, t: Target, m: Target, remap: Remap, clock: int, n: nat)
    requires Ready(c, s, m, remap) && StoreOk(c, s, st) && Sections(c, s, st, now).Some?
    requires Replay(s, Bindings(c, s, st, now), t, m, clock)
    ensures var b := Entries(c, s, st, now);
            var second := if st.kv.Some? then DumpSection(c, s, RESP, b).value else [];
            var r := LoadSections(c, second + [U8(END)], m, remap, clock, n, 0);
            && (r.Some? <==> AllFit(c, s, b, m.session, remap))
            && (r.Some? ==> r.value.lisp == n && r.value.resp == |b|
                            && Replay(s, SavedRecords(c, s, st, now), t, r.value.target, clock))
  {
    hide Ready, LoadRecords, LoadSections, DumpRecords, AllFit, Replay, Select, Known;
    var a, b := Bindings(c, s, st, now), Entries(c, s, st, now);
    StoreRecords(c, s, st, now);
    if st.kv.Some? {
      SectionTrip(c, s, Resp, b, m, remap, clock, Counts(m, n, 0), [U8(END)]);
      var l := LoadRecords(c, Resp, DumpRecords(c, s, b).value + ([U8(END)] + [U8(END)]), m, remap, clock, 0);
      if l.Some? {
        TrailerLoads(c, l.value.target, remap, clock, n, |b|);
        ReplayTrans(s, a, b, t, m, l.value.target, clock);
      }
    } else {
      assert [] + [U8(END)] == [U8(END)] && a + b == a;
      TrailerLoads(c, m, remap, clock, n, 0);
      AllFitNone(c, s, m.session, remap);
    }
  }

  lemma AllFitNone(c: Codec, s: Session, u: Session, remap: Remap)
    ensures AllFit(c, s, [], u, remap)
  {
  }

  /** Loading a saved database succeeds exactly when the table's names and every saved record fit, and then the
      saved records, and no others, land one after the other. */
  lemma LoadTrip(c: Codec, s: Session, st: Store, now: int, host: Host, t: Target, clock: int)
    requires CodecOk(c) && SessionOk(s) && SessionOk(t.session) && StoreOk(c, s, st) && Dump(c, s, st, now).Some?
    ensures var r := Load(c, host, Dump(c, s, st, now).value, t, clock);
            var u := Equipped(host, s, t);
            && (r.Done? || r.Corrupt?)
            && (r.Done? <==> NamesFit(s, 0) && AllFit(c, s, SavedRecords(c, s, st, now), u.session, Table(host, s, t)))
            && (r.Done? ==> r.lisp == |Bindings(c, s, st, now)| && r.resp == |Entries(c, s, st, now)|
                            && Replay(s, SavedRecords(c, s, st, now), u, r.target, clock))
  {
    hide LoadSections, LoadTable, DumpTable, AllFit, Replay, Select, Known, NamesFit, RemapOk, TableRemap, Provided,
        Sections, SessionOk;
    var sections := Sections(c, s, st, now).value;
    var toks := Dump(c, s, st, now).value;
    assert toks[0] == Data(MAGIC) && toks[1] == U16(VERSION) && toks[2] == U16(|s.customs|);
    assert toks[3..] == DumpTable(s, 0) + sections;
    TableStart(host, s, t, sections);
    TableIsOk(host, s, t);
    if NamesFit(s, 0) {
      SectionsTrip(c, s, st, now, Equipped(host, s, t), Table(host, s, t), clock);
    }
  }

  lemma TableStart(host: Host, s: Session, t: Target, rest: seq<Token>)
    requires SessionOk(t.session)
    ensures LoadTable(host, DumpTable(s, 0) + rest, |s.customs|, t.session.customs, map[])
            == if NamesFit(s, 0) then Some(LoadedTable(rest, Equipped(host, s, t).session.customs, Table(host, s, t)))
                else None
  {
    hide LoadTable, DumpTable, NamesFit;
    TableTrip(host, s, 0, t.session.customs, rest);
  }

  /** Which files are taken: those that start with the magic and version 5. */
  lemma Versions(c: Codec, host: Host, version: nat, rest: seq<Token>, t: Target, clock: int)
    requires SessionOk(t.session)
    ensures var r := Load(c, host, [Data([0x41, 0x4C, 0x43, 0x56]), U16(version)] + rest, t, clock);
            && (version == 0 || version > 5 ==> r == Corrupt)
            && (1 <= version <= 4 ==> r == Older)
            && (version == 5 ==> r.Corrupt? || r.Done?)
    ensures forall toks: seq<Token> {:trigger Load(c, host, toks, t, clock)} ::
              toks == [] || toks[0] != Data([0x41, 0x4C, 0x43, 0x56]) <==> Load(c, host, toks, t, clock) == NotOurs
  {
    hide LoadTable, LoadSections;
    var toks := [Data([0x41, 0x4C, 0x43, 0x56]), U16(version)] + rest;
    assert toks[0] == Data(MAGIC) && toks[1] == U16(version);
  }

  // ---- what the loaded process holds ----

  predicate MentionedIn(s: Session, rs: seq<Record>, name: string) {
    rs != [] && (Mentions(s, rs[0].val, name) || MentionedIn(s, rs[1..], name))
  }

  lemma {:induction false} MentionsKnown(s: Session, v: Val, u: Session, w: Val, name: string)
    requires SameNames(s, v, u, w) && Mentions(s, v, name)
    ensures name in u.classes
    decreases v, 1, 0
  {
    match v
    case Cell(_, _, l, r) =>
      if MentionsHalf(s, l, name) {
        MentionsKnown(s, l.value, u, w.left.value, name);
      } else {
        MentionsKnown(s, r.value, u, w.right.value, name);
      }
    case Group(_, _) => MentionsFromKnown(s, v, 0, u, w, name);
    case TypeObj(_) =>
  }

  lemma {:induction false} MentionsFromKnown(s: Session, v: Val, k: nat, u: Session, w: Val, name: string)
    requires v.Group? && k <= |v.elems| && SameNames(s, v, u, w) && MentionsFrom(s, v, k, name)
    ensures name in u.classes
    decreases v, 0, |v.elems| - k
  {
    if Mentions(s, v.elems[k], name) {
      MentionsKnown(s, v.elems[k], u, w.elems[k], name);
    } else {
      MentionsFromKnown(s, v, k + 1, u, w, name);
    }
  }

  lemma BackClasses(s: Session, v: Val, t: Target, x: Loaded, name: string)
    requires Back(s, v, t, x.rest, x)
    ensures name in x.target.session.classes <==> name in t.session.classes || Mentions(s, v, name)
    ensures name in Claimed(t, x.target) <==> name !in t.session.classes && Mentions(s, v, name)
  {
    hide SameNames, Mentions;
    assert x.target.session.classes == t.session.classes + Claimed(t, x.target);
    if Mentions(s, v, name) {
      MentionsKnown(s, v, x.target.session, x.val, name);
    }
  }

  /** A key and the record of it, as they are once the record has landed. */
  predicate Restored(s: Session, r: Record, u: Target, clock: int) {
    match r.home
    case Lisp => r.key in u.env && u.env[r.key].timestamp == clock && SameNames(s, r.val, u.session, u.env[r.key].val)
    case Resp => r.key in u.kv && u.kv[r.key].expiry == (if r.stamp > 0 then r.stamp else 0)
                 && SameNames(s, r.val, u.session, u.kv[r.key].val)
  }

  predicate SameEntry(t: Target, u: Target, k: string) {
    (k in t.kv <==> k in u.kv) && (k in t.kv ==> u.kv[k] == t.kv[k])
  }

  lemma StepEffect(s: Session, r: Record, t: Target, m: Target, clock: int, k: string)
    requires Step(s, r, t, m, clock)
    ensures Restored(s, r, m, clock)
    ensures k in m.session.classes <==> k in t.session.classes || Mentions(s, r.val, k)
    ensures m.session.customs == t.session.customs && t.session.classes <= m.session.classes && SessionOk(m.session)
    ensures (r.home.Resp? && k == r.key) || SameEntry(t, m, k)
    ensures !(r.home.Lisp? && k == r.key) ==>
              if k !in t.session.classes && Mentions(s, r.val, k) then Bound(m, k) else SameBinding(t, m, k)
  {
    hide SameNames, Mentions, SessionOk;
    var x :| Landed(s, r, t, m, clock, x);
    BackClasses(s, r.val, t, x, k);
    if k in Claimed(t, x.target) {
      assert Bound(x.target, k);
    } else {
      assert SameBinding(t, x.target, k);
    }
  }

  lemma {:induction false} ReplayClasses(s: Session, rs: seq<Record>, t: Target, u: Target, clock: int, name: string)
    requires Replay(s, rs, t, u, clock)
    ensures u.session.customs == t.session.customs && t.session.classes <= u.session.classes
    ensures name in u.session.classes <==> name in t.session.classes || MentionedIn(s, rs, name)
  {
    hide Step;
    if rs != [] {
      var m :| Step(s, rs[0], t, m, clock) && Replay(s, rs[1..], m, u, clock);
      StepFacts(s, rs[0], t, m, clock, name);
      ReplayClasses(s, rs[1..], m, u, clock, name);
    }
  }

  lemma StepFacts(s: Session, r: Record, t: Target, m: Target, clock: int, k: string)
    requires Step(s, r, t, m, clock)
    ensures k in m.session.classes <==> k in t.session.classes || Mentions(s, r.val, k)
    ensures m.session.customs == t.session.customs && t.session.classes <= m.session.classes
  {
    hide Step, Mentions, Restored, SameEntry, Bound, SameBinding;
    StepEffect(s, r, t, m, clock, k);
  }

  predicate HasKey(rs: seq<Record>, home: Home, k: string) {
    exists r :: r in rs && r.home == home && r.key == k
  }

  lemma HasKeyParts(rs: seq<Record>, home: Home, k: string)
    requires rs != []
    ensures HasKey(rs, home, k) <==> (rs[0].home == home && rs[0].key == k) || HasKey(rs[1..], home, k)
  {
    if HasKey(rs, home, k) && !HasKey(rs[1..], home, k) {
      var r :| r in rs && r.home == home && r.key == k;
      assert rs == [rs[0]] + rs[1..];
    }
  }

  /** A name with no record: its binding stays, unless a class of that name is new here and some record holds it. */
  lemma {:induction false} BindingStays(s: Session, rs: seq<Record>, t: Target, u: Target, clock: int, k: string)
    requires Replay(s, rs, t, u, clock) && !HasKey(rs, Lisp, k)
    ensures if k !in t.session.classes && MentionedIn(s, rs, k) then Bound(u, k) else SameBinding(t, u, k)
  {
    hide Step, Mentions, HasKey, Restored, SameEntry;
    if rs != [] {
      var m :| Step(s, rs[0], t, m, clock) && Replay(s, rs[1..], m, u, clock);
      HasKeyParts(rs, Lisp, k);
      StepEffect(s, rs[0], t, m, clock, k);
      BindingStays(s, rs[1..], m, u, clock, k);
      ReplayClasses(s, rs[1..], m, u, clock, k);
    }
  }

  /** An entry of the keyspace with no record stays. */
  lemma {:induction false} EntryStays(s: Session, rs: seq<Record>, t: Target, u: Target, clock: int, k: string)
    requires Replay(s, rs, t, u, clock) && !HasKey(rs, Resp, k)
    ensures SameEntry(t, u, k)
  {
    hide Step, Mentions, HasKey, Restored, SameBinding, Bound;
    if rs != [] {
      var m :| Step(s, rs[0], t, m, clock) && Replay(s, rs[1..], m, u, clock);
      HasKeyParts(rs, Resp, k);
      StepEffect(s, rs[0], t, m, clock, k);
      EntryStays(s, rs[1..], m, u, clock, k);
    }
  }

  /** A later record brings in a class of the same name as the binding, which takes the binding's place. */
  predicate Overwritten(s: Session, rs: seq<Record>, i: nat, t: Target)
    requires i < |rs|
  {
    var k := rs[i].key;
    rs[i].home.Lisp? && k !in t.session.classes && !MentionedIn(s, rs[..i + 1], k) && MentionedIn(s, rs[i + 1..], k)
  }

  predicate KeysDistinct(rs: seq<Record>) {
    forall i, j | 0 <= i < j < |rs| :: rs[i].home != rs[j].home || rs[i].key != rs[j].key
  }

  lemma {:induction false} MentionedParts(s: Session, a: seq<Record>, b: seq<Record>, name: string)
    ensures MentionedIn(s, a + b, name) <==> MentionedIn(s, a, name) || MentionedIn(s, b, name)
  {
    if a == [] {
      assert a + b == b;
    } else {
      assert (a + b)[0] == a[0] && (a + b)[1..] == a[1..] + b;
      MentionedParts(s, a[1..], b, name);
    }
  }

  lemma OverwrittenNext(s: Session, rs: seq<Record>, i: nat, t: Target, m: Target)
    requires 0 < i < |rs|
    requires rs[i].key in m.session.classes <==> rs[i].key in t.session.classes || Mentions(s, rs[0].val, rs[i].key)
    ensures Overwritten(s, rs[1..], i - 1, m) <==> Overwritten(s, rs, i, t)
  {
    hide Mentions;
    var k := rs[i].key;
    assert rs[..i + 1][0] == rs[0] && rs[..i + 1][1..] == rs[1..][..i];
    assert rs[1..][i..] == rs[i + 1..];
  }

  lemma RestoredStays(s: Session, r: Record, m: Target, u: Target, clock: int)
    requires Restored(s, r, m, clock) && m.session.customs == u.session.customs
        && m.session.classes <= u.session.classes
    requires if r.home.Lisp? then SameBinding(m, u, r.key) else SameEntry(m, u, r.key)
    ensures Restored(s, r, u, clock)
  {
    hide SameNames;
    NamesStay(s, r.val, m.session, u.session, if r.home.Lisp? then m.env[r.key].val else m.kv[r.key].val);
  }

  lemma FirstHasNoTwin(rs: seq<Record>)
    requires rs != [] && KeysDistinct(rs)
    ensures !HasKey(rs[1..], rs[0].home, rs[0].key) && KeysDistinct(rs[1..])
  {
    forall r | r in rs[1..] ensures r.home != rs[0].home || r.key != rs[0].key {
      var j :| 0 <= j < |rs[1..]| && rs[1..][j] == r;
      assert rs[j + 1] == r;
    }
  }

  /** Every saved record is there, under its key, with the value of the same names and its expiry; except that a
      binding whose name is that of a class which a later record brings in is lost to that class. */
  lemma {:induction false} RecordLands(s: Session, rs: seq<Record>, t: Target, u: Target, clock: int, i: nat)
    requires Replay(s, rs, t, u, clock) && KeysDistinct(rs) && i < |rs|
    ensures if Overwritten(s, rs, i, t) then Bound(u, rs[i].key) else Restored(s, rs[i], u, clock)
  {
    hide Step, Mentions, HasKey, Restored, SameBinding, SameEntry, Bound, KeysDistinct, Overwritten;
    var m :| Step(s, rs[0], t, m, clock) && Replay(s, rs[1..], m, u, clock);
    StepEffect(s, rs[0], t, m, clock, rs[i].key);
    FirstHasNoTwin(rs);
    if i == 0 {
      FirstLands(s, rs, t, m, u, clock);
    } else {
      OverwrittenNext(s, rs, i, t, m);
      assert rs[1..][i - 1] == rs[i];
      RecordLands(s, rs[1..], m, u, clock, i - 1);
    }
  }

  lemma FirstLands(s: Session, rs: seq<Record>, t: Target, m: Target, u: Target, clock: int)
    requires rs != [] && Step(s, rs[0], t, m, clock) && Replay(s, rs[1..], m, u, clock)
        && !HasKey(rs[1..], rs[0].home, rs[0].key)
    ensures if Overwritten(s, rs, 0, t) then Bound(u, rs[0].key) else Restored(s, rs[0], u, clock)
  {
    hide Step, Mentions, HasKey, Restored, SameBinding, SameEntry, Bound, Replay;
    var r := rs[0];
    StepEffect(s, r, t, m, clock, r.key);
    ReplayClasses(s, rs[1..], m, u, clock, r.key);
    assert rs[..1][0] == r && !MentionedIn(s, rs[..1][1..], r.key) && rs[0 + 1..] == rs[1..];
    assert MentionedIn(s, rs[..1], r.key) <==> Mentions(s, r.val, r.key);
    if r.home.Resp? {
      EntryStays(s, rs[1..], m, u, clock, r.key);
      RestoredStays(s, r, m, u, clock);
    } else {
      BindingStays(s, rs[1..], m, u, clock, r.key);
      if !Overwritten(s, rs, 0, t) {
        RestoredStays(s, r, m, u, clock);
      }
    }
  }

  // ---- the round trip of a database ----

  lemma {:induction false} SelectDistinct(c: Codec, s: Session, rs: seq<Record>, now: int)
    requires KeysDistinct(rs)
    ensures KeysDistinct(Select(c, s, rs, now))
  {
    hide Saved, KeysDistinct, HasKey;
    if rs == [] {
      NoneDistinct();
    } else {
      FirstHasNoTwin(rs);
      SelectDistinct(c, s, rs[1..], now);
      var more := Select(c, s, rs[1..], now);
      if Saved(c, s, rs[0], now) {
        SelectHasKey(c, s, rs[1..], now, rs[0]);
        DistinctCons(rs[0], more);
      }
    }
  }

  lemma NoneDistinct()
    ensures KeysDistinct([])
  {
  }

  lemma SelectHasKey(c: Codec, s: Session, rs: seq<Record>, now: int, r: Record)
    requires !HasKey(rs, r.home, r.key)
    ensures !HasKey(Select(c, s, rs, now), r.home, r.key)
  {
  }

  lemma DistinctCons(r: Record, rs: seq<Record>)
    requires KeysDistinct(rs) && !HasKey(rs, r.home, r.key)
    ensures KeysDistinct([r] + rs)
  {
    var all := [r] + rs;
    forall i, j | 0 <= i < j < |all| ensures all[i].home != all[j].home || all[i].key != all[j].key {
      if i == 0 {
        assert all[j] == rs[j - 1] && rs[j - 1] in rs;
      }
    }
  }

  lemma SavedDistinct(c: Codec, s: Session, st: Store, now: int)
    requires StoreOk(c, s, st)
    ensures KeysDistinct(SavedRecords(c, s, st, now))
  {
    hide Select, Known;
    StoreRecords(c, s, st, now);
    SelectDistinct(c, s, st.env, now);
    if st.kv.Some? {
      SelectDistinct(c, s, st.kv.value, now);
    }
    var a, b := Bindings(c, s, st, now), Entries(c, s, st, now);
    assert forall i {:trigger a[i]} | 0 <= i < |a| :: RecordOk(c, s, Lisp, a[i]);
    assert forall i {:trigger b[i]} | 0 <= i < |b| :: RecordOk(c, s, Resp, b[i]);
  }

  /** A class that the loading process lacked and that a saved value holds. */
  predicate NewClass(s: Session, rs: seq<Record>, t: Target, k: string) {
    k !in t.session.classes && MentionedIn(s, rs, k)
  }

  ghost predicate RecordsLanded(s: Session, rs: seq<Record>, t: Target, u: Target, clock: int) {
    forall i {:trigger Overwritten(s, rs, i, t)} {:trigger rs[i]} | 0 <= i < |rs| ::
      if Overwritten(s, rs, i, t) then Bound(u, rs[i].key) else Restored(s, rs[i], u, clock)
  }

  ghost predicate OthersStay(s: Session, rs: seq<Record>, t: Target, u: Target) {
    && (forall k {:trigger SameEntry(t, u, k)} | !HasKey(rs, Resp, k) :: SameEntry(t, u, k))
    && (forall k {:trigger SameBinding(t, u, k)} | !HasKey(rs, Lisp, k) ::
          if NewClass(s, rs, t, k) then Bound(u, k) else SameBinding(t, u, k))
  }

  /** A database saved by one process and loaded by another that takes it: the saved records are there, under
      the values of the same names, and everything else stays. */
  lemma DatabaseRoundTrip(c: Codec, s: Session, st: Store, now: int, host: Host, t: Target, clock: int)
    requires CodecOk(c) && SessionOk(s) && SessionOk(t.session) && StoreOk(c, s, st) && Dump(c, s, st, now).Some?
    requires Load(c, host, Dump(c, s, st, now).value, t, clock).Done?
    ensures var rs := SavedRecords(c, s, st, now);
            var u := Load(c, host, Dump(c, s, st, now).value, t, clock).target;
            KeysDistinct(rs) && RecordsLanded(s, rs, t, u, clock) && OthersStay(s, rs, t, u)
  {
    hide Load, Dump, StoreOk, Replay, KeysDistinct, HasKey, Restored, AllFit, NamesFit, SavedRecords, MentionedIn,
        Provided;
    LoadTrip(c, s, st, now, host, t, clock);
    SavedDistinct(c, s, st, now);
    var rs, m := SavedRecords(c, s, st, now), Equipped(host, s, t);
    var u := Load(c, host, Dump(c, s, st, now).value, t, clock).target;
    forall i | 0 <= i < |rs| ensures if Overwritten(s, rs, i, t) then Bound(u, rs[i].key)
        else Restored(s, rs[i], u, clock) {
      RecordLands(s, rs, m, u, clock, i);
    }
    forall k | !HasKey(rs, Resp, k) ensures SameEntry(t, u, k) {
      EntryStays(s, rs, m, u, clock, k);
    }
    forall k | !HasKey(rs, Lisp, k) ensures if NewClass(s, rs, t, k) then Bound(u, k) else SameBinding(t, u, k) {
      BindingStays(s, rs, m, u, clock, k);
    }
  }

  /** If the loading process has every class that a saved value holds, nothing is lost: every saved record is
      restored, and every other binding and entry stays. */
  lemma NothingLost(s: Session, rs: seq<Record>, t: Target, u: Target, clock: int)
    requires RecordsLanded(s, rs, t, u, clock) && OthersStay(s, rs, t, u)
    requires forall k | MentionedIn(s, rs, k) :: k in t.session.classes
    ensures forall i {:trigger rs[i]} | 0 <= i < |rs| :: Restored(s, rs[i], u, clock)
    ensures forall k {:trigger SameBinding(t, u, k)} | !HasKey(rs, Lisp, k) :: SameBinding(t, u, k)
  {
    hide Restored, HasKey;
    forall i | 0 <= i < |rs| ensures Restored(s, rs[i], u, clock) {
      assert rs == rs[..i + 1] + rs[i + 1..];
      MentionedParts(s, rs[..i + 1], rs[i + 1..], rs[i].key);
      assert !Overwritten(s, rs, i, t);
    }
  }

  /** `Foo` was rebound to another value, and `bar` holds the class `Foo`: loaded into a new process, `Foo` is
      the class, and its saved value is lost. */
  lemma BindingLost(c: Codec, tag: nat, host: Host, clock: int)
    requires CodecOk(c) && tag in c.dumps && tag in c.loads && 1 <= tag < FIRST_CUSTOM && tag !in c.cells
        && tag !in c.groups
    ensures var s := Session([], ["Foo"]);
            var st := Store([Record(Lisp, "Foo", Leaf(tag, [7]), 1), Record(Lisp, "bar", TypeObj(USER_MIN), 1)], None);
            var t := Target(Session([], []), map[], map[]);
            && StoreOk(c, s, st) && SavedRecords(c, s, st, 0) == st.env && Dump(c, s, st, 0).Some?
            && var r := Load(c, host, Dump(c, s, st, 0).value, t, clock); r.Done? && Bound(r.target, "Foo")
  {
    hide Load, Dump, Replay, KeysDistinct, HasKey, Restored;
    var s := Session([], ["Foo"]);
    var foo, bar := Record(Lisp, "Foo", Leaf(tag, [7]), 1), Record(Lisp, "bar", TypeObj(USER_MIN), 1);
    var st := Store([foo, bar], None);
    var t := Target(Session([], []), map[], map[]);
    assert foo.key != bar.key by { assert |foo.key| == 3 && foo.key[0] == 'F' && bar.key[0] == 'b'; }
    SelectTwo(c, s, foo, bar);
    var rs := SavedRecords(c, s, st, 0);
    assert rs == [foo, bar];
    DumpFails(c, s, st, 0);
    LoadTrip(c, s, st, 0, host, t, clock);
    DatabaseRoundTrip(c, s, st, 0, host, t, clock);
    assert rs[..1] == [foo] && rs[1..] == [bar];
    assert !Mentions(s, foo.val, "Foo") && !MentionedIn(s, [foo][1..], "Foo") && MentionedIn(s, [bar], "Foo");
    assert Overwritten(s, rs, 0, t);
  }

  lemma SelectTwo(c: Codec, s: Session, a: Record, b: Record)
    requires Saved(c, s, a, 0) && Saved(c, s, b, 0)
    ensures Select(c, s, [a, b], 0) == [a, b]
  {
    hide Saved;
    assert [a, b][1..] == [b] && [b][1..] == [];
    assert Select(c, s, [b], 0) == [b];
  }

  lemma SelectFirst(c: Codec, s: Session, a: Record, b: Record, now: int)
    requires Saved(c, s, a, now) && !Saved(c, s, b, now)
    ensures Select(c, s, [a, b], now) == [a]
  {
    hide Saved;
    assert [a, b][1..] == [b] && [b][1..] == [];
    assert Select(c, s, [b], now) == [];
  }

  lemma DumpOne(c: Codec, s: Session, r: Record)
    requires DumpRecord(c, s, r).Some?
    ensures DumpRecords(c, s, [r]) == DumpRecord(c, s, r)
  {
    hide DumpRecord;
    assert [r][1..] == [] && DumpRecord(c, s, r).value + [] == DumpRecord(c, s, r).value;
  }

  const POINT_SESSION := Session([CustomType("point", "geo", true, true)], [])
  const POINT_BINDING := Record(Lisp, "p", Custom(27, [1, 2]), 7)
  const LIVE_ENTRY := Record(Resp, "k", TypeObj(4), 90)

  /** A session with one native type, a binding with a value of it, a binding that was not marked, an entry
      with an expiry, and an entry that has expired. */
  const POINT_STORE := Store([POINT_BINDING, Record(Lisp, "t", TypeObj(3), 0)],
                             Some([LIVE_ENTRY, Record(Resp, "old", TypeObj(5), 60)]))

  const POINT_HEADER := [Data([0x41, 0x4C, 0x43, 0x56]), U16(5), U16(1), U16(27), Str("point"), Str("geo")]
  const POINT_LISP := [U8(0x4C), U8(0xFE), U16(27), Data([1, 2]), Str("p"), U8(0)]
  const POINT_RESP := [U8(0x52), U8(0xFE), I64(90), U16(0xFFFF), U32(4), Str("k"), U8(0)]

  lemma PointSections(c: Codec)
    ensures DumpSection(c, POINT_SESSION, LISP, [POINT_BINDING]) == Some(POINT_LISP)
    ensures DumpSection(c, POINT_SESSION, RESP, [LIVE_ENTRY]) == Some(POINT_RESP)
  {
    var s, p, k := POINT_SESSION, POINT_BINDING, LIVE_ENTRY;
    assert DumpRecord(c, s, p).Some? && DumpRecord(c, s, k).Some?;
    assert DumpRecord(c, s, p).value == [U8(0xFE), U16(27), Data([1, 2]), Str("p")];
    assert DumpRecord(c, s, k).value == [U8(0xFE), I64(90), U16(0xFFFF), U32(4), Str("k")];
    DumpOne(c, s, p);
    DumpOne(c, s, k);
    hide DumpRecords, DumpRecord;
    assert DumpSection(c, s, LISP, [p]).value == POINT_LISP;
    assert DumpSection(c, s, RESP, [k]).value == POINT_RESP;
  }

  lemma Joined<T>(a: seq<T>, b: seq<T>, c: seq<T>, d: seq<T>)
    ensures a + (b + (c + d)) == a + b + c + d
  {
  }

  lemma PointHeader()
    ensures Header(POINT_SESSION) == POINT_HEADER
  {
    assert DumpTable(POINT_SESSION, 1) == [];
    assert DumpTable(POINT_SESSION, 0) == [U16(27), Str("point"), Str("geo")];
  }

  /** The file of that session, token for token. */
  lemma PointFile(c: Codec)
    ensures var file := Dump(c, POINT_SESSION, POINT_STORE, 60);
            file.Some? && file.value == POINT_HEADER + POINT_LISP + POINT_RESP + [U8(0)]
  {
    var s := POINT_SESSION;
    SelectFirst(c, s, POINT_BINDING, Record(Lisp, "t", TypeObj(3), 0), 60);
    SelectFirst(c, s, LIVE_ENTRY, Record(Resp, "old", TypeObj(5), 60), 60);
    PointSections(c);
    PointHeader();
    hide DumpSection, Select, Header;
    var sections := Sections(c, s, POINT_STORE, 60).value;
    assert sections == POINT_LISP + (POINT_RESP + [U8(0)]);
    Joined(POINT_HEADER, POINT_LISP, POINT_RESP, [U8(0)]);
  }
}
