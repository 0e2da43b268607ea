/** The loops that write and read a database file. */
module DatabaseFile {
  import opened Wrappers
  import opened Persist
  import opened Database

  lemma {:induction false} SelectSnoc(c: Codec, s: Session, rs: seq<Record>, r: Record, now: int)
    ensures Select(c, s, rs + [r], now) == Select(c, s, rs, now) + if Saved(c, s, r, now) then [r] else []
  {
    hide Saved;
    if rs == [] {
      assert [] + [r] == [r] && [r][1..] == [];
    } else {
      assert (rs + [r])[0] == rs[0] && (rs + [r])[1..] == rs[1..] + [r];
      SelectSnoc(c, s, rs[1..], r, now);
    }
  }

  lemma {:induction false} DumpRecordsSnoc(c: Codec, s: Session, rs: seq<Record>, r: Record)
    ensures DumpRecords(c, s, rs + [r]) == Both(DumpRecords(c, s, rs), DumpRecord(c, s, r))
  {
    hide DumpRecord;
    if rs == [] {
      assert [] + [r] == [r] && [r][1..] == [];
      var one := DumpRecord(c, s, r);
      if one.Some? {
        assert one.value + [] == one.value && [] + one.value == one.value;
      }
    } else {
      assert (rs + [r])[0] == rs[0] && (rs + [r])[1..] == rs[1..] + [r];
      DumpRecordsSnoc(c, s, rs[1..], r);
      var a, b, d := DumpRecord(c, s, rs[0]), DumpRecords(c, s, rs[1..]), DumpRecord(c, s, r);
      if a.Some? && b.Some? && d.Some? {
        assert a.value + (b.value + d.value) == (a.value + b.value) + d.value;
      }
    }
  }

  lemma {:induction false} DumpRecordsStops(c: Codec, s: Session, rs: seq<Record>, more: seq<Record>)
    requires DumpRecords(c, s, rs).None?
    ensures DumpRecords(c, s, rs + more).None?
  {
    hide DumpRecord;
    assert (rs + more)[0] == rs[0] && (rs + more)[1..] == rs[1..] + more;
    if DumpRecord(c, s, rs[0]).Some? {
      DumpRecordsStops(c, s, rs[1..], more);
    }
  }

  lemma {:induction false} SelectParted(c: Codec, s: Session, a: seq<Record>, b: seq<Record>, now: int)
    ensures Select(c, s, a + b, now) == Select(c, s, a, now) + Select(c, s, b, now)
  {
    hide Saved;
    if a == [] {
      assert a + b == b;
    } else {
      assert (a + b)[0] == a[0] && (a + b)[1..] == a[1..] + b;
      SelectParted(c, s, a[1..], b, now);
    }
  }

  /** The walk that writes a section's records, leaving out those that are not saved: it gives up at the first
      record that cannot be written. */
  method WriteRecords(c: Codec, s: Session, rs: seq<Record>, now: int) returns (out: Option<seq<Token>>)
    ensures out == DumpRecords(c, s, Select(c, s, rs, now))
  {
    hide Saved, Select, DumpRecord, DumpRecords;
    out := Some([]);
    var i := 0;
    NoRecords(c, s, now);
    assert rs[..0] == [];
    while i < |rs|
      invariant i <= |rs| && out == DumpRecords(c, s, Select(c, s, rs[..i], now)) && out.Some?
    {
      assert rs[..i + 1] == rs[..i] + [rs[i]];
      SelectSnoc(c, s, rs[..i], rs[i], now);
      var done := Select(c, s, rs[..i], now);
      if !Saved(c, s, rs[i], now) {
        assert done + [] == done;
        i := i + 1;
        continue;
      }
      DumpRecordsSnoc(c, s, done, rs[i]);
      var record := DumpRecord(c, s, rs[i]);
      if record.None? {
        SelectParted(c, s, rs[..i + 1], rs[i + 1..], now);
        assert rs[..i + 1] + rs[i + 1..] == rs;
        DumpRecordsStops(c, s, done + [rs[i]], Select(c, s, rs[i + 1..], now));
        return None;
      }
      out := Some(out.value + record.value);
      i := i + 1;
    }
    assert rs[..i] == rs;
  }

  lemma NoRecords(c: Codec, s: Session, now: int)
    ensures DumpRecords(c, s, Select(c, s, [], now)) == Some([])
  {
  }

  /** The loop over a section's records. */
  method ReadRecords(c: Codec, home: Home, toks: seq<Token>, t: Target, remap: Remap, now: int)
    returns (r: Option<LoadedRecords>)
    ensures r == LoadRecords(c, home, toks, t, remap, now, 0)
  {
    hide LoadRecord;
    var rest, target, n := toks, t, 0;
    while true
      invariant LoadRecords(c, home, rest, target, remap, now, n) == LoadRecords(c, home, toks, t, remap, now, 0)
      decreases |rest|
    {
      if rest == [] || !rest[0].U8? {
        return None;
      }
      var marker := rest[0].n;
      if marker == END {
        return Some(LoadedRecords(rest[1..], target, n));
      }
      if marker != RECORD {
        return None;
      }
      var x := LoadRecord(c, home, rest[1..], target, remap, now);
      if x.None? {
        return None;
      }
      rest, target, n := x.value.rest, x.value.target, n + 1;
    }
  }

  /** The loop over the table of native types. */
  method ReadTable(host: Host, toks: seq<Token>, n: nat, customs: seq<CustomType>) returns (r: Option<LoadedTable>)
    requires FIRST_CUSTOM + |customs| <= TYPE_CAP
    ensures r == LoadTable(host, toks, n, customs, map[])
  {
    hide Provide, CustomId, Noted;
    var rest, types, remap: Remap := toks, customs, map[];
    var i := 0;
    while i < n
      invariant i <= n && FIRST_CUSTOM + |types| <= TYPE_CAP
      invariant LoadTable(host, rest, n - i, types, remap) == LoadTable(host, toks, n, customs, map[])
    {
      if |rest| < 3 || !rest[0].U16? || !rest[1].Str? || |rest[1].s| > MAX_STRN || !rest[2].Str?
          || |rest[2].s| > MAX_STRN {
        return None;
      }
      types := Provide(host, types, rest[1].s, rest[2].s);
      remap := Noted(remap, rest[0].n, CustomId(types, rest[1].s));
      rest := rest[3..];
      i := i + 1;
    }
    return Some(LoadedTable(rest, types, remap));
  }

  /** The loop over the sections. */
  method ReadSections(c: Codec, toks: seq<Token>, t: Target, remap: Remap, now: int) returns (r: Option<Counts>)
    ensures r == LoadSections(c, toks, t, remap, now, 0, 0)
  {
    hide LoadRecords;
    var rest, x := toks, Counts(t, 0, 0);
    while true
      invariant LoadSections(c, rest, x.target, remap, now, x.lisp, x.resp)
          == LoadSections(c, toks, t, remap, now, 0, 0)
      decreases |rest|
    {
      if rest == [] || !rest[0].U8? {
        return None;
      }
      var tag := rest[0].n;
      if tag == END {
        return Some(x);
      } else if tag != LISP && tag != RESP {
        return None;
      }
      var got := ReadRecords(c, if tag == LISP then Lisp else Resp, rest[1..], x.target, remap, now);
      if got.None? {
        return None;
      }
      rest := got.value.rest;
      x := if tag == LISP then Counts(got.value.target, x.lisp + got.value.count, x.resp)
           else Counts(got.value.target, x.lisp, x.resp + got.value.count);
    }
  }

  /** `alcove_load_unified`. */
  method ReadFile(c: Codec, host: Host, toks: seq<Token>, t: Target, now: int) returns (r: Outcome)
    requires SessionOk(t.session)
    ensures r == Load(c, host, toks, t, now)
  {
    hide LoadTable, LoadSections;
    if toks == [] || toks[0] != Data(MAGIC) {
      return NotOurs;
    }
    if |toks| < 2 || !toks[1].U16? || toks[1].n == 0 || toks[1].n > VERSION {
      return Corrupt;
    }
    if toks[1].n < VERSION {
      return Older;
    }
    if |toks| < 3 || !toks[2].U16? {
      return Corrupt;
    }
    var table := ReadTable(host, toks[3..], toks[2].n, t.session.customs);
    if table.None? {
      return Corrupt;
    }
    var u := t.(session := t.session.(customs := table.value.customs));
    var x := ReadSections(c, table.value.rest, u, table.value.remap, now);
    if x.None? {
      return Corrupt;
    }
    return Done(x.value.target, x.value.lisp, x.value.resp);
  }
}
