/** The inline reader as it runs: a cursor that moves along one line's text. */
module AdderCursor {
  import opened AdderForms
  import opened AdderReader
  import AdderBlanks
  import AdderCounts

  class LineReader {
    const s: string
    var i: nat

    constructor (text: string)
      ensures s == text && i == 0
    {
      s := text;
      i := 0;
    }

    ghost predicate Valid()
      reads this`i
    {
      i <= |s|
    }

    function Rest(): string
      requires Valid()
      reads this`i
    {
      s[i..]
    }

    /** Step over blanks, and over commas between braces. */
    method Skip(comma: bool)
      requires Valid()
      modifies this`i
      ensures Valid() && old(i) <= i && Rest() == SkipBlanks(old(Rest()), comma)
    {
      while i < |s| && (IsBlank(s[i]) || (comma && s[i] == ','))
        invariant old(i) <= i <= |s| && SkipBlanks(s[i..], comma) == SkipBlanks(old(s[i..]), comma)
      {
        assert s[i..][1..] == s[i + 1..];
        i := i + 1;
      }
    }

    /** Step past the closing quote of the string literal that the cursor is in. */
    method SkipString()
      requires Valid()
      modifies this`i
      ensures Valid() && i == old(i) + StrEnd(old(Rest()))
    {
      while i < |s|
        invariant old(i) <= i <= |s| && i + StrEnd(s[i..]) == old(i) + StrEnd(old(s[i..]))
        decreases |s| - i
      {
        assert s[i..][1..] == s[i + 1..];
        if s[i] == '\\' {
          if i + 1 < |s| {
            assert s[i..][2..] == s[i + 2..];
            i := i + 2;
          } else {
            i := i + 1;
          }
        } else if s[i] == '"' {
          i := i + 1;
          return;
        } else {
          i := i + 1;
        }
      }
    }

    method SkipToken()
      requires Valid()
      modifies this`i
      ensures Valid() && i == old(i) + TokEnd(old(Rest()))
    {
      while i < |s| && !IsDelim(s[i])
        invariant old(i) <= i <= |s| && i + TokEnd(s[i..]) == old(i) + TokEnd(old(s[i..]))
      {
        assert s[i..][1..] == s[i + 1..];
        i := i + 1;
      }
    }

    /** The forms up to the closing character. */
    method Forms(term: string) returns (out: seq<Form>)
      requires Valid() && |term| <= 1
      modifies this`i
      ensures Valid() && old(i) <= i && (out, Rest()) == ReadForms(old(Rest()), term, [])
      decreases |s| - i, 3
    {
      hide ReadForms, ReadOne, ReadCalls, AttrSegments;
      out := [];
      while true
        invariant old(i) <= i <= |s|
        invariant ReadForms(s[i..], term, out) == ReadForms(old(s[i..]), term, [])
        decreases |s| - i
      {
        ghost var start := s[i..];
        FormsSkip(start, term, out);
        AdderBlanks.SkipTwice(start, term == "}");
        Skip(term == "}");
        if i >= |s| {
          FormsEnd(s[i..], term, out);
          return;
        }
        if term == [s[i]] {
          FormsClose(s[i..], term, out);
          i := i + 1;
          return;
        }
        FormsNext(s[i..], term, out);
        out := Next(term, out);
      }
    }

    /** One more form, with the call sugar of a name glued to its arguments. */
    method Next(term: string, out: seq<Form>) returns (r: seq<Form>)
      requires Valid() && i < |s|
      modifies this`i
      ensures Valid() && old(i) < i && (r, Rest()) == ReadNextForm(old(Rest()), out)
      decreases |s| - i, 2
    {
      hide ReadForms, ReadOne, ReadCalls, AttrSegments;
      var f := One();
      if f.Atom? && i < |s| && s[i] == '(' {
        assert s[i..][1..] == s[i + 1..];
        i := i + 1;
        var args := Forms(")");
        var segs := AttrSegments(f.text);
        if segs == [] && ((out != [] && Binder(Last(out))) || SelfBinder(f)) {
          return out + [f, List(args)];
        }
        AdderCounts.SegsMany(f.text);
        var call := if segs != [] then List([AtomOf(Last(segs)), ReadChain(Front(segs))] + args) else List([f] + args);
        call := Calls(call);
        return out + [call];
      }
      return out + [f];
    }

    /** Argument groups glued to a call re-head it. */
    method Calls(call: Form) returns (r: Form)
      requires Valid()
      modifies this`i
      ensures Valid() && old(i) <= i && (r, Rest()) == ReadCalls(call, old(Rest()))
      decreases |s| - i, 4
    {
      hide ReadForms, ReadOne;
      r := call;
      while i < |s| && s[i] == '('
        invariant old(i) <= i <= |s|
        invariant ReadCalls(r, s[i..]) == ReadCalls(call, old(s[i..]))
        decreases |s| - i
      {
        assert s[i..][1..] == s[i + 1..];
        i := i + 1;
        var more := Forms(")");
        r := List([r] + more);
      }
    }

    /** One form. */
    method One() returns (f: Form)
      requires Valid()
      modifies this`i
      ensures Valid() && old(i) <= i && (i == old(i) ==> i == |s|) && (f, Rest()) == ReadOne(old(Rest()))
      decreases |s| - i, 1
    {
      hide ReadForms, ReadOne;
      ghost var t := s[i..];
      if i >= |s| {
        OneNone();
        return Atom("");
      }
      var c := s[i];
      if c == '{' || c == '(' || c == '[' {
        f := Bracket(c);
      } else if c == '"' {
        AdderBlanks.OneString(t);
        var start := i;
        assert t[1..] == s[i + 1..];
        i := i + 1;
        SkipString();
        Cut(start, i);
        f := AtomOf(s[start..i]);
      } else if c == '\'' || c == '`' || c == ',' {
        f := Prefixed(c);
      } else {
        f := Dispatch();
      }
    }

    /** A map, a list, or the body of a function of one argument. */
    method Bracket(c: char) returns (f: Form)
      requires Valid() && i < |s| && s[i] == c && c in "{(["
      modifies this`i
      ensures Valid() && old(i) < i && (f, Rest()) == ReadOne(old(Rest()))
      decreases |s| - i, 0
    {
      hide ReadForms, ReadOne;
      ghost var t := s[i..];
      OneBracket(t);
      assert t[1..] == s[i + 1..];
      i := i + 1;
      if c == '{' {
        var fs := Forms("}");
        f := List([Atom("hash-map")] + fs);
      } else if c == '(' {
        var fs := Forms(")");
        f := List(fs);
      } else {
        var fs := Forms("]");
        f := List([Atom("fn"), List([Atom("_")]), List(fs)]);
      }
    }

    /** The reader macros: quote, quasiquote, unquote and its splicing form. */
    method Prefixed(c: char) returns (f: Form)
      requires Valid() && i < |s| && s[i] == c && c in "'`,"
      modifies this`i
      ensures Valid() && old(i) < i && (f, Rest()) == ReadOne(old(Rest()))
      decreases |s| - i, 0
    {
      hide ReadForms, ReadOne;
      ghost var t := s[i..];
      OnePrefixed(t);
      assert t[1..] == s[i + 1..];
      i := i + 1;
      var splice := c == ',' && i < |s| && s[i] == '@';
      if splice {
        assert t[2..] == s[i + 1..];
        i := i + 1;
      }
      Skip(false);
      var x := One();
      var name := if c == '\'' then "quote" else if c == '`' then "quasiquote" else if splice then "unquote-splicing"
          else "unquote";
      f := List([Atom(name), x]);
    }

    /** Everything that starts with `#`, and plain tokens. */
    method Dispatch() returns (f: Form)
      requires Valid() && i < |s| && s[i] !in "{([\"'`,"
      modifies this`i
      ensures Valid() && old(i) < i && (f, Rest()) == ReadOne(old(Rest()))
      decreases |s| - i, 0
    {
      hide ReadForms, ReadOne, StrEnd, TokEnd;
      ghost var t := s[i..];
      var n := Opener(s[i..]);
      if !(i + 2 < |s| && s[i] == '#' && s[i + 1] == '\\') && n > 0 {
        OneOpener(t);
        var head := OpenerHead(s[i..]);
        var term := if s[i + n - 1] == '[' then "]" else "}";
        assert t[n..] == s[i + n..];
        i := i + n;
        var fs := Forms(term);
        f := List([Atom(head)] + fs);
      } else {
        f := Token();
      }
    }

    /** Character and blob literals, and plain tokens. */
    method Token() returns (f: Form)
      requires Valid() && i < |s| && s[i] !in "{([\"'`," && (CharLit(Rest()) || Opener(Rest()) == 0)
      modifies this`i
      ensures Valid() && old(i) < i && (f, Rest()) == ReadOne(old(Rest()))
    {
      hide ReadForms, ReadOne, Opener;
      if i + 2 < |s| && s[i] == '#' && s[i + 1] == '\\' {
        f := CharLiteral();
      } else if i + 2 < |s| && s[i] == '#' && s[i + 1] == 'b' && s[i + 2] == '"' {
        f := BlobLiteral();
      } else {
        f := PlainToken();
      }
    }

    method CharLiteral() returns (f: Form)
      requires Valid() && i < |s| && CharLit(Rest())
      modifies this`i
      ensures Valid() && old(i) < i && (f, Rest()) == ReadOne(old(Rest()))
    {
      hide ReadForms, ReadOne;
      OneChar(s[i..]);
      var start := i;
      i := i + 3;
      Cut(start, i);
      f := AtomOf(s[start..i]);
    }

    method BlobLiteral() returns (f: Form)
      requires Valid() && i < |s| && AdderBlanks.BlobLit(Rest())
      modifies this`i
      ensures Valid() && old(i) < i && (f, Rest()) == ReadOne(old(Rest()))
    {
      hide ReadForms, ReadOne, StrEnd;
      ghost var t := s[i..];
      var start := i;
      AdderBlanks.OneBlob(t);
      assert t[3..] == s[i + 3..];
      i := i + 3;
      SkipString();
      Cut(start, i);
      assert s[start + 2..i] == t[2..i - start];
      f := List([Atom("string->blob"), AtomOf(s[start + 2..i])]);
    }

    method PlainToken() returns (f: Form)
      requires Valid() && i < |s| && s[i] !in "{([\"'`,"
      requires !CharLit(Rest()) && Opener(Rest()) == 0 && !AdderBlanks.BlobLit(Rest())
      modifies this`i
      ensures Valid() && old(i) < i && (f, Rest()) == ReadOne(old(Rest()))
    {
      hide ReadForms, ReadOne, TokEnd, Opener;
      OneToken(s[i..]);
      var start := i;
      SkipToken();
      if i == start {
        i := i + 1;
      }
      Cut(start, i);
      f := AtomOf(s[start..i]);
    }

    lemma Cut(start: nat, end: nat)
      requires start <= end <= |s|
      ensures s[start..][..end - start] == s[start..end] && s[start..][end - start..] == s[end..]
    {
    }
  }

  /** One round of the reading loop, the blanks already skipped. */
  function ReadNextForm(t: string, out: seq<Form>): (r: (seq<Form>, string))
    requires t != ""
    ensures |r.1| < |t|
  {
    var one := ReadOne(t);
    if one.0.Atom? && one.1 != "" && one.1[0] == '(' then
      var args := ReadForms(one.1[1..], ")", []);
      var segs := AttrSegments(one.0.text);
      if segs == [] && ((out != [] && Binder(Last(out))) || SelfBinder(one.0))
          then (out + [one.0, List(args.0)], args.1)
      else
        var call := if segs != [] then List([AtomOf(Last(segs)), ReadChain(Front(segs))] + args.0)
            else List([one.0] + args.0);
        var more := ReadCalls(call, args.1);
        (out + [more.0], more.1)
    else (out + [one.0], one.1)
  }

  lemma FormsSkip(s: string, term: string, out: seq<Form>)
    requires |term| <= 1
    ensures ReadForms(SkipBlanks(s, term == "}"), term, out) == ReadForms(s, term, out)
  {
    AdderBlanks.SkipTwice(s, term == "}");
  }

  lemma FormsEnd(s: string, term: string, out: seq<Form>)
    requires |term| <= 1 && s == ""
    ensures ReadForms(s, term, out) == (out, s)
  {
  }

  lemma FormsClose(s: string, term: string, out: seq<Form>)
    requires |term| <= 1 && s != "" && SkipBlanks(s, term == "}") == s && term == [s[0]]
    ensures ReadForms(s, term, out) == (out, s[1..])
  {
  }

  lemma FormsNext(s: string, term: string, out: seq<Form>)
    requires |term| <= 1 && s != "" && SkipBlanks(s, term == "}") == s && term != [s[0]]
    ensures ReadForms(s, term, out) == ReadForms(ReadNextForm(s, out).1, term, ReadNextForm(s, out).0)
  {
    hide ReadOne, ReadCalls;
  }

  // ---- `ReadOne`, branch by branch ----

  lemma OneNone()
    ensures ReadOne("") == (Atom(""), "")
  {
  }

  lemma OneBracket(t: string)
    requires t != ""
    ensures t[0] == '{' ==> var r := ReadForms(t[1..], "}", []); ReadOne(t) == (List([Atom("hash-map")] + r.0), r.1)
    ensures t[0] == '(' ==> var r := ReadForms(t[1..], ")", []); ReadOne(t) == (List(r.0), r.1)
    ensures t[0] == '[' ==> var r := ReadForms(t[1..], "]", []);
                            ReadOne(t) == (List([Atom("fn"), List([Atom("_")]), List(r.0)]), r.1)
  {
    hide ReadForms;
  }

  predicate Spliced(t: string) {
    |t| >= 2 && t[0] == ',' && t[1] == '@'
  }

  lemma OnePrefixed(t: string)
    requires t != "" && t[0] in "'`,"
    ensures var name := if t[0] == '\'' then "quote" else if t[0] == '`' then "quasiquote"
                        else if Spliced(t) then "unquote-splicing" else "unquote";
            var r := ReadOne(SkipBlanks(if Spliced(t) then t[2..] else t[1..], false));
            ReadOne(t) == (List([Atom(name), r.0]), r.1)
  {
    OneQuote(t);
    OneUnquote(t);
  }

  lemma OneQuote(t: string)
    requires t != ""
    ensures var r := ReadOne(SkipBlanks(t[1..], false));
            && (t[0] == '\'' ==> ReadOne(t) == (List([Atom("quote"), r.0]), r.1))
            && (t[0] == '`' ==> ReadOne(t) == (List([Atom("quasiquote"), r.0]), r.1))
  {
  }

  lemma OneUnquote(t: string)
    requires t != ""
    ensures var r := ReadOne(SkipBlanks(if Spliced(t) then t[2..] else t[1..], false));
            t[0] == ',' ==> ReadOne(t) == (List([Atom(if Spliced(t) then "unquote-splicing" else "unquote"), r.0]), r.1)
  {
  }

  predicate CharLit(t: string) {
    |t| >= 3 && t[0] == '#' && t[1] == '\\'
  }

  lemma OneChar(t: string)
    ensures CharLit(t) ==> ReadOne(t) == (AtomOf(t[..3]), t[3..])
  {
  }

  lemma OneOpener(t: string)
    requires t != ""
    ensures Opener(t) > 0 ==>
              var r := ReadForms(t[Opener(t)..], if t[Opener(t) - 1] == '[' then "]" else "}", []);
              ReadOne(t) == (List([Atom(OpenerHead(t))] + r.0), r.1)
  {
    hide ReadForms;
  }

  lemma OneToken(t: string)
    requires t != "" && t[0] !in "{([\"'`,"
    ensures !CharLit(t) && Opener(t) == 0 && !AdderBlanks.BlobLit(t) ==>
              var n := if TokEnd(t) == 0 then 1 else TokEnd(t); ReadOne(t) == (AtomOf(t[..n]), t[n..])
  {
    hide ReadForms, TokEnd, StrEnd, SkipBlanks, Opener, OpenerHead, AtomOf;
  }
}
