/**
 The database file: what is saved of the global bindings and of the keyspace, and how a file is read into a
 running process.
 */
module Database {
  import opened Wrappers
  import opened Persist

  const MAGIC: seq<nat> := [0x41, 0x4C, 0x43, 0x56]
  const VERSION: nat := 5
  const LISP: nat := 0x4C
  const RESP: nat := 0x52
  const RECORD: nat := 0xFE
  const END: nat := 0
  const MAX_STR: nat := 0x100_0000
  const MAX_STRN: nat := 0x2000_0000

  datatype Home = Lisp | Resp

  /** A binding with its time stamp, or an entry of the keyspace with its expiry. */
  datatype Record = Record(home: Home, key: string, val: Val, stamp: int)

  // ---- writing ----

  /** A binding is saved if it was marked, an entry if it has not expired; and only if the check passes it. */
  predicate Saved(c: Codec, s: Session, r: Record, now: int) {
    && (if r.home.Lisp? then r.stamp > 0 else !(r.stamp != 0 && now >= r.stamp))
    && Dumpable(c, s, r.val, 0)
  }

  function Select(c: Codec, s: Session, rs: seq<Record>, now: int): (saved: seq<Record>)
    ensures forall i | 0 <= i < |saved| :: saved[i] in rs && Saved(c, s, saved[i], now)
  {
    if rs == [] then []
    else if Saved(c, s, rs[0], now) then [rs[0]] + Select(c, s, rs[1..], now)
    else Select(c, s, rs[1..], now)
  }

  function DumpRecord(c: Codec, s: Session, r: Record): Option<seq<Token>> {
    Both(Some([U8(RECORD)] + if r.home.Lisp? then [] else [I64(r.stamp)]),
        Both(DumpVal(c, s, r.val), Some([Str(r.key)])))
  }

  function DumpRecords(c: Codec, s: Session, rs: seq<Record>): Option<seq<Token>> {
    if rs == [] then Some([]) else Both(DumpRecord(c, s, rs[0]), DumpRecords(c, s, rs[1..]))
  }

  /** The table of native types: the id, the name, and the module to load for it. */
  function DumpTable(s: Session, k: nat): seq<Token>
    requires k <= |s.customs|
    decreases |s.customs| - k
  {
    if k == |s.customs| then []
    else [U16(FIRST_CUSTOM + k), Str(s.customs[k].name), Str(s.customs[k].spec)] + DumpTable(s, k + 1)
  }

  function DumpSection(c: Codec, s: Session, home: nat, rs: seq<Record>): Option<seq<Token>> {
    Both(Some([U8(home)]), Both(DumpRecords(c, s, rs), Some([U8(END)])))
  }

  /** What the process has to save: its global bindings and, if it serves one, its keyspace, each in the order
      in which the tables are walked. */
  datatype Store = Store(env: seq<Record>, kv: Option<seq<Record>>)

  predicate StoreOk(c: Codec, s: Session, st: Store) {
    && (forall i | 0 <= i < |st.env| :: st.env[i].home.Lisp? && Known(c, s, st.env[i].val))
    && (st.kv.Some? ==> forall i | 0 <= i < |st.kv.value| ::
      st.kv.value[i].home.Resp? && Known(c, s, st.kv.value[i].val))
    && (forall i, j | 0 <= i < j < |st.env| :: st.env[i].key != st.env[j].key)
    && (st.kv.Some? ==> forall i, j | 0 <= i < j < |st.kv.value| :: st.kv.value[i].key != st.kv.value[j].key)
  }

  function Bindings(c: Codec, s: Session, st: Store, now: int): seq<Record> {
    Select(c, s, st.env, now)
  }

  function Entries(c: Codec, s: Session, st: Store, now: int): seq<Record> {
    if st.kv.Some? then Select(c, s, st.kv.value, now) else []
  }

  function Header(s: Session): seq<Token> {
    [Data(MAGIC), U16(VERSION), U16(|s.customs|)] + DumpTable(s, 0)
  }

  function Sections(c: Codec, s: Session, st: Store, now: int): Option<seq<Token>> {
    Both(DumpSection(c, s, LISP, Bindings(c, s, st, now)),
         Both(if st.kv.Some? then DumpSection(c, s, RESP, Entries(c, s, st, now)) else Some([]), Some([U8(END)])))
  }

  /** `alcove_dump_unified`. */
  function Dump(c: Codec, s: Session, st: Store, now: int): Option<seq<Token>> {
    Both(Some(Header(s)), Sections(c, s, st, now))
  }

  // ---- reading ----

  /** Whether modules may be loaded, and which types each registers. */
  datatype Host = Host(safe: bool, modules: map<string, seq<CustomType>>)

  /** `custom_type_id_by_name`: 0 if there is none. */
  function CustomId(customs: seq<CustomType>, name: string): (id: nat)
    ensures id != 0 ==> FIRST_CUSTOM <= id < FIRST_CUSTOM + |customs| && customs[id - FIRST_CUSTOM].name == name
    ensures id == 0 ==> forall i | 0 <= i < |customs| :: customs[i].name != name
  {
    if customs == [] then 0
    else
      var id := CustomId(customs[..|customs| - 1], name);
      if id != 0 then id else if customs[|customs| - 1].name == name then FIRST_CUSTOM + |customs| - 1 else 0
  }

  /** `alcove_register_type`, for each of a module's types: a name that is there stays, and the table can be full. */
  function Register(customs: seq<CustomType>, types: seq<CustomType>): (r: seq<CustomType>)
    requires FIRST_CUSTOM + |customs| <= TYPE_CAP
    ensures customs <= r && FIRST_CUSTOM + |r| <= TYPE_CAP
    decreases |types|
  {
    if types == [] then customs
    else if CustomId(customs, types[0].name) != 0 || FIRST_CUSTOM + |customs| >= TYPE_CAP
        then Register(customs, types[1..])
    else Register(customs + [types[0]], types[1..])
  }

  /** The types after a name is asked for: if it is not there, its module is loaded, unless that is not allowed. */
  function Provide(host: Host, customs: seq<CustomType>, name: string, spec: string): (r: seq<CustomType>)
    requires FIRST_CUSTOM + |customs| <= TYPE_CAP
    ensures customs <= r && FIRST_CUSTOM + |r| <= TYPE_CAP
  {
    if CustomId(customs, name) == 0 && !host.safe && spec != "" && spec in host.modules
    then Register(customs, host.modules[spec])
    else customs
  }

  datatype LoadedTable = LoadedTable(rest: seq<Token>, customs: seq<CustomType>, remap: Remap)

  /** The table of a file, entry by entry. */
  function LoadTable(host: Host, toks: seq<Token>, n: nat, customs: seq<CustomType>, remap: Remap): Option<LoadedTable>
    requires FIRST_CUSTOM + |customs| <= TYPE_CAP
    decreases n
  {
    if n == 0 then Some(LoadedTable(toks, customs, remap))
    else if |toks| < 3 || !toks[0].U16? || !toks[1].Str? || |toks[1].s| > MAX_STRN || !toks[2].Str?
        || |toks[2].s| > MAX_STRN then None
    else
      var after := Provide(host, customs, toks[1].s, toks[2].s);
      LoadTable(host, toks[3..], n - 1, after, Noted(remap, toks[0].n, CustomId(after, toks[1].s)))
  }

  function Noted(remap: Remap, there: nat, here: nat): Remap {
    if there < TYPE_CAP then remap[there := here] else remap
  }

  /** Where a record goes. */
  function Put(t: Target, home: Home, key: string, val: Val, expiry: int, now: int): Target {
    match home
    case Lisp => t.(env := t.env[key := Binding(val, now)])
    case Resp => t.(kv := t.kv[key := Entry(val, if expiry > 0 then expiry else 0)])
  }

  predicate KeyFits(home: Home, key: string) {
    |key| <= if home.Lisp? then MAX_STR else MAX_STRN
  }

  datatype LoadedRecord = LoadedRecord(rest: seq<Token>, target: Target)

  function LoadRecord(c: Codec, home: Home, toks: seq<Token>, t: Target, remap: Remap,
      now: int): (r: Option<LoadedRecord>)
    ensures r.Some? ==> |r.value.rest| < |toks|
  {
    if home.Resp? && (toks == [] || !toks[0].I64?) then None
    else
      match LoadVal(c, if home.Resp? then toks[1..] else toks, t, remap, 0)
      case None => None
      case Some(x) =>
        if x.rest == [] || !x.rest[0].Str? || !KeyFits(home, x.rest[0].s) then None
        else Some(LoadedRecord(x.rest[1..],
                               Put(x.target, home, x.rest[0].s, x.val, if home.Resp? then toks[0].i else 0, now)))
  }

  datatype LoadedRecords = LoadedRecords(rest: seq<Token>, target: Target, count: nat)

  /** `load_section_records`: records up to the end mark. */
  function LoadRecords(c: Codec, home: Home, toks: seq<Token>, t: Target, remap: Remap, now: int,
      n: nat): (r: Option<LoadedRecords>)
    ensures r.Some? ==> |r.value.rest| < |toks|
    decreases |toks|
  {
    if toks == [] || !toks[0].U8? then None
    else if toks[0].n == END then Some(LoadedRecords(toks[1..], t, n))
    else if toks[0].n != RECORD then None
    else
      match LoadRecord(c, home, toks[1..], t, remap, now)
      case None => None
      case Some(x) => LoadRecords(c, home, x.rest, x.target, remap, now, n + 1)
  }

  datatype Counts = Counts(target: Target, lisp: nat, resp: nat)

  /** Sections up to the trailer. */
  function LoadSections(c: Codec, toks: seq<Token>, t: Target, remap: Remap, now: int, lisp: nat,
      resp: nat): Option<Counts>
    decreases |toks|
  {
    if toks == [] || !toks[0].U8? then None
    else if toks[0].n == END then Some(Counts(t, lisp, resp))
    else if toks[0].n == LISP then
      match LoadRecords(c, Lisp, toks[1..], t, remap, now, 0)
      case None => None
      case Some(x) => LoadSections(c, x.rest, x.target, remap, now, lisp + x.count, resp)
    else if toks[0].n == RESP then
      match LoadRecords(c, Resp, toks[1..], t, remap, now, 0)
      case None => None
      case Some(x) => LoadSections(c, x.rest, x.target, remap, now, lisp, resp + x.count)
    else None
  }

  /** `NotOurs`: the magic is missing and an older reader takes over.  `Older`: versions 1 to 4, whose values
      are written differently. */
  datatype Outcome = NotOurs | Older | Corrupt | Done(target: Target, lisp: nat, resp: nat)

  /** `alcove_load_unified`. */
  function Load(c: Codec, host: Host, toks: seq<Token>, t: Target, now: int): Outcome
    requires SessionOk(t.session)
  {
    if toks == [] || toks[0] != Data(MAGIC) then NotOurs
    else if |toks| < 2 || !toks[1].U16? || toks[1].n == 0 || toks[1].n > VERSION then Corrupt
    else if toks[1].n < VERSION then Older
    else if |toks| < 3 || !toks[2].U16? then Corrupt
    else
      match LoadTable(host, toks[3..], toks[2].n, t.session.customs, map[])
      case None => Corrupt
      case Some(table) =>
        match LoadSections(c, table.rest, t.(session := t.session.(customs := table.customs)), table.remap, now, 0, 0)
        case None => Corrupt
        case Some(x) => Done(x.target, x.lisp, x.resp)
  }
}
