/** The line scanners as the loops they are, over an index and a string flag. */
module AdderScanners {
  import opened AdderForms
  import opened AdderReader
  import opened AdderSource

  lemma TailStep(s: string, i: nat, k: nat)
    requires i + k <= |s|
    ensures s[i..][k..] == s[i + k..] && s[i..][..k] == s[i..i + k]
    ensures k > 0 ==> s[i..][0] == s[i]
    ensures k > 1 ==> s[i..][1] == s[i + 1]
  {
  }

  lemma StripSkip(s: string, i: nat, inStr: bool, n: nat)
    requires 0 < n && i + n <= |s|
    requires if inStr then n == (if s[i] == '\\' && i + 1 < |s| then 2 else 1)
             else if s[i] == '#' && i + 1 < |s| && s[i + 1] == '\\' then n == (if i + 2 < |s| then 3 else 2)
             else n == 1 && s[i] != ';' && !(s[i] == '#' && (i + 1 >= |s| || s[i + 1] in " \t!"))
    ensures var next := if n > 1 then inStr else if inStr then s[i] != '"' else s[i] == '"';
            Strip(s[i..], inStr) == s[i..i + n] + Strip(s[i + n..], next)
  {
    var t := s[i..];
    TailStep(s, i, n);
    assert t[0] == s[i] && (|t| >= 2 ==> t[1] == s[i + 1]);
    assert n == 1 ==> t[..1] == [t[0]];
    assert n == 2 && !inStr ==> t[2..] == "" && t[..2] == t;
  }

  lemma StripStop(s: string, i: nat)
    requires i < |s| && !(s[i] == '#' && i + 1 < |s| && s[i + 1] == '\\')
    requires s[i] == ';' || (s[i] == '#' && (i + 1 >= |s| || s[i + 1] in " \t!"))
    ensures Strip(s[i..], false) == ""
  {
    var t := s[i..];
    assert t[0] == s[i] && (|t| >= 2 ==> t[1] == s[i + 1]);
  }

  /** `als_strip_comment`: copies until a comment starts. */
  method StripComment(line: string) returns (out: string)
    ensures out == Strip(line, false)
  {
    hide Strip;
    out := "";
    var i, inStr := 0, false;
    while i < |line|
      invariant 0 <= i <= |line|
      invariant out + Strip(line[i..], inStr) == Strip(line, false)
      decreases |line| - i
    {
      var c, n := line[i], 1;
      var next := if inStr then c != '"' else c == '"';
      if inStr {
        if c == '\\' && i + 1 < |line| {
          n, next := 2, true;
        }
      } else if c == '#' && i + 1 < |line| && line[i + 1] == '\\' {
        n, next := if i + 2 < |line| then 3 else 2, false;
      } else if c == ';' || (c == '#' && (i + 1 >= |line| || line[i + 1] in " \t!")) {
        StripStop(line, i);
        return;
      }
      StripSkip(line, i, inStr, n);
      out, i, inStr := out + line[i..i + n], i + n, next;
    }
    StripNone(inStr);
    assert line[i..] == "";
  }

  lemma StripNone(inStr: bool)
    ensures Strip("", inStr) == ""
  {
  }

  /** `als_bracket_depth`, with the string state carried in and out. */
  method BracketDepth(t: string, inStr0: bool) returns (d: int, inStr: bool)
    ensures (d, inStr) == Depth(t, inStr0)
  {
    d, inStr := 0, inStr0;
    var k := 0;
    while k < |t|
      invariant 0 <= k <= |t|
      invariant Depth(t, inStr0) == (d + Depth(t[k..], inStr).0, Depth(t[k..], inStr).1)
    {
      TailStep(t, k, 1);
      if k + 1 < |t| { TailStep(t, k, 2); }
      var c := t[k];
      if inStr {
        if c == '\\' && k + 1 < |t| {
          k := k + 2;
        } else {
          inStr := c != '"';
          k := k + 1;
        }
      } else if c == '#' && k + 1 < |t| && t[k + 1] == '\\' {
        TailStep(t, k, if k + 2 < |t| then 3 else 2);
        k := k + if k + 2 < |t| then 3 else 2;
      } else {
        if c == '"' {
          inStr := true;
        } else if c in "([{" {
          d := d + 1;
        } else if c in ")]}" {
          d := d - 1;
        }
        k := k + 1;
      }
    }
  }

  /** `als_opens_block`: trims the block colon and the blanks before it. */
  method TrimColon(t: string) returns (r: string, opens: bool)
    ensures (r, opens) == OpensBlock(t)
  {
    if t == "" || Last(t) != ':' {
      return t, false;
    }
    var head := Front(t);
    var i, inStr := 0, false;
    while i < |head|
      invariant 0 <= i <= |head| + 1
      invariant i <= |head| ==> InStrAfter(head, false) == InStrAfter(head[i..], inStr)
      invariant i == |head| + 1 ==> InStrAfter(head, false) == inStr
    {
      TailStep(head, i, 1);
      if i + 1 < |head| { TailStep(head, i, 2); }
      if head[i] == '\\' && inStr {
        i := i + 2;
      } else {
        if head[i] == '"' {
          inStr := !inStr;
        }
        i := i + 1;
      }
    }
    if inStr {
      return t, false;
    }
    r, opens := head, true;
    while r != "" && IsBlank(Last(r))
      invariant TrimRight(r, false) == TrimRight(head, false)
      decreases |r|
    {
      r := Front(r);
    }
  }

  /** Is anything left from `i` on but blanks? */
  method OnlyBlanks(t: string, i: nat) returns (b: bool)
    requires i <= |t|
    ensures b <==> SkipBlanks(t[i..], false) == ""
  {
    var j := i;
    while j < |t|
      invariant i <= j <= |t|
      invariant SkipBlanks(t[i..], false) == SkipBlanks(t[j..], false)
    {
      TailStep(t, j, 1);
      if !IsBlank(t[j]) {
        return false;
      }
      j := j + 1;
    }
    return true;
  }

  /** `als_inline_colon`: the index of the colon, or -1. */
  method FindColon(t: string) returns (at: int)
    ensures at == match InlineColon(t, false) case Some(i) => i as int case None => -1
  {
    hide SkipBlanks;
    var i, inStr := 0, false;
    while i < |t|
      invariant 0 <= i <= |t|
      invariant InlineColon(t, false) == Shift(i, InlineColon(t[i..], inStr))
    {
      TailStep(t, i, 1);
      if i + 1 < |t| { TailStep(t, i, 2); }
      if inStr {
        if t[i] == '\\' && i + 1 < |t| {
          i := i + 1;
        } else if t[i] == '"' {
          inStr := false;
        }
      } else if t[i] == '"' {
        inStr := true;
      } else if t[i] == ':' && i + 1 < |t| && IsBlank(t[i + 1]) {
        var bare := OnlyBlanks(t, i + 1);
        return if bare then -1 else i;
      }
      i := i + 1;
    }
    return -1;
  }
}
