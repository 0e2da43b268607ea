/** Byte codecs (`blob.h`): base64 as in section 4 of RFC 4648, and hexadecimal as in section 8. */
module Codecs {
  import opened Wrappers

  /** A byte, as a number. */
  type byte = x: int | 0 <= x < 256
  /** Six bits, as a number. */
  type sextet = x: int | 0 <= x < 64

  datatype Result<T> = Ok(value: T) | BadLength | BadCharacter(at: nat)

  // ---- the base64 alphabet ----

  function Char64(d: sextet): char {
    var n := d;
    if n < 26 then ('A' as int + n) as char
    else if n < 52 then ('a' as int + n - 26) as char
    else if n < 62 then ('0' as int + n - 52) as char
    else if n == 62 then '+' else '/'
  }

  function Digit64(c: char): Option<sextet> {
    if 'A' <= c <= 'Z' then Some(c as int - 'A' as int)
    else if 'a' <= c <= 'z' then Some(c as int - 'a' as int + 26)
    else if '0' <= c <= '9' then Some(c as int - '0' as int + 52)
    else if c == '+' then Some(62) else if c == '/' then Some(63) else None
  }

  lemma Alphabet(d: sextet, c: char)
    ensures Digit64(Char64(d)) == Some(d) && Char64(d) != '='
    ensures Digit64(c).Some? ==> Char64(Digit64(c).value) == c && c != '='
  {
  }

  // ---- groups ----

  function Word3(a: byte, b: byte, c: byte): nat {
    a * 0x1_0000 + b * 0x100 + c
  }

  function SextetAt(w: nat, shift: nat): sextet
    requires shift > 0
  {
    w / shift % 64
  }

  function ByteAt(w: nat, shift: nat): byte
    requires shift > 0
  {
    w / shift % 256
  }

  /** Six-bit digits of a byte string: four for each three bytes, three or two for what is left. */
  function Digits(s: seq<byte>): seq<sextet> {
    if s == [] then []
    else if |s| == 1 then var w := Word3(s[0], 0, 0); [SextetAt(w, 0x4_0000), SextetAt(w, 0x1000)]
    else if |s| == 2 then var w := Word3(s[0], s[1], 0); [SextetAt(w, 0x4_0000), SextetAt(w, 0x1000), SextetAt(w, 0x40)]
    else
      var w := Word3(s[0], s[1], s[2]);
      [SextetAt(w, 0x4_0000), SextetAt(w, 0x1000), SextetAt(w, 0x40), SextetAt(w, 1)] + Digits(s[3..])
  }

  /** Bytes of a digit string; the bits that do not fill a byte are dropped. */
  function Bytes(ds: seq<sextet>): seq<byte> {
    if |ds| < 2 then []
    else if |ds| == 2 then var w := Word2(ds[0], ds[1]); [ByteAt(w, 0x10)]
    else if |ds| == 3 then var w := Word2(ds[0], ds[1]) * 64 + ds[2]; [ByteAt(w, 0x400), ByteAt(w, 4)]
    else
      var w := Word4(ds[0], ds[1], ds[2], ds[3]);
      [ByteAt(w, 0x1_0000), ByteAt(w, 0x100), ByteAt(w, 1)] + Bytes(ds[4..])
  }

  function Word2(a: sextet, b: sextet): nat {
    a * 64 + b
  }

  /** The bits that a last short group leaves over are zero. */
  predicate SpareZero(ds: seq<sextet>) {
    if |ds| >= 4 then SpareZero(ds[4..])
    else if |ds| == 3 then ds[2] % 4 == 0
    else if |ds| == 2 then ds[1] % 16 == 0
    else true
  }

  lemma NoSmaller(d: nat, m: nat)
    requires d >= 1
    ensures d * m >= m
  {
  }

  lemma Multiple(d: int, m: nat)
    requires d != 0 && m > 0
    ensures d * m >= m || d * m <= 0 - m
  {
    if d > 0 {
      NoSmaller(d, m);
    } else {
      NoSmaller(-d, m);
      assert d * m == 0 - (-d) * m;
    }
  }

  lemma Divide(w: nat, q: nat, m: nat, r: nat)
    requires m > 0 && r < m && w == q * m + r
    ensures w / m == q && w % m == r
  {
    var d := w / m - q;
    assert d * m == (w / m) * m - q * m;
    if d != 0 {
      Multiple(d, m);
    }
  }

  /** Reading a digit out of a number that is put together from its parts. */
  lemma SextetIs(w: nat, shift: nat, q: nat, d: sextet, r: nat)
    requires r < shift && w == (q * 64 + d) * shift + r
    ensures SextetAt(w, shift) == d
  {
    Divide(w, q * 64 + d, shift, r);
    Divide(q * 64 + d, q, 64, d);
  }

  lemma ByteIs(w: nat, shift: nat, q: nat, d: byte, r: nat)
    requires r < shift && w == (q * 256 + d) * shift + r
    ensures ByteAt(w, shift) == d
  {
    Divide(w, q * 256 + d, shift, r);
    Divide(q * 256 + d, q, 256, d);
  }

  /** A number below 2^24 is its four six-bit digits, and its three bytes. */
  lemma Regroup(w: nat)
    requires w < 0x100_0000
    ensures ((SextetAt(w, 0x4_0000) * 64 + SextetAt(w, 0x1000)) * 64 + SextetAt(w, 0x40)) * 64 + SextetAt(w, 1) == w
  {
    var q1 := w / 64;
    var q2 := q1 / 64;
    var a := q2 / 64;
    var b, c, d := q2 % 64, q1 % 64, w % 64;
    SextetIs(w, 0x4_0000, 0, a, (b * 64 + c) * 64 + d);
    SextetIs(w, 0x1000, a, b, c * 64 + d);
    SextetIs(w, 0x40, a * 64 + b, c, d);
    SextetIs(w, 1, (a * 64 + b) * 64 + c, d, 0);
  }

  lemma RegroupBytes(w: nat)
    requires w < 0x100_0000
    ensures Word3(ByteAt(w, 0x1_0000), ByteAt(w, 0x100), ByteAt(w, 1)) == w
  {
    var q := w / 256;
    var a := q / 256;
    var b, c := q % 256, w % 256;
    ByteIs(w, 0x1_0000, 0, a, b * 256 + c);
    ByteIs(w, 0x100, a, b, c);
    ByteIs(w, 1, a * 256 + b, c, 0);
  }

  /** The word that four digits make. */
  function Word4(a: sextet, b: sextet, c: sextet, d: sextet): (w: nat)
    ensures w < 0x100_0000
  {
    (Word2(a, b) * 64 + c) * 64 + d
  }

  lemma Triple(a: byte, b: byte, c: byte)
    ensures var w := Word3(a, b, c);
            var v := Word4(SextetAt(w, 0x4_0000), SextetAt(w, 0x1000), SextetAt(w, 0x40), SextetAt(w, 1));
            ByteAt(v, 0x1_0000) == a && ByteAt(v, 0x100) == b && ByteAt(v, 1) == c
  {
    hide SextetAt, ByteAt;
    var w := Word3(a, b, c);
    Regroup(w);
    ByteIs(w, 0x1_0000, 0, a, b * 256 + c);
    ByteIs(w, 0x100, a, b, c);
    ByteIs(w, 1, a * 256 + b, c, 0);
  }

  lemma Quad(a: sextet, b: sextet, c: sextet, d: sextet)
    ensures var w := Word4(a, b, c, d);
            var x := Word3(ByteAt(w, 0x1_0000), ByteAt(w, 0x100), ByteAt(w, 1));
            SextetAt(x, 0x4_0000) == a && SextetAt(x, 0x1000) == b && SextetAt(x, 0x40) == c && SextetAt(x, 1) == d
  {
    hide SextetAt, ByteAt;
    var w := Word4(a, b, c, d);
    RegroupBytes(w);
    SextetIs(w, 0x4_0000, 0, a, (b * 64 + c) * 64 + d);
    SextetIs(w, 0x1000, a, b, c * 64 + d);
    SextetIs(w, 0x40, a * 64 + b, c, d);
    SextetIs(w, 1, (a * 64 + b) * 64 + c, d, 0);
  }

  /** The bytes of a word of four digits, told from its two leading digits and what follows. */
  lemma LeadBytes(a: sextet, b: sextet, c: sextet, d: sextet)
    ensures ByteAt(Word4(a, b, c, d), 0x1_0000) == a * 4 + b / 16
    ensures ByteAt(Word4(a, b, c, d), 0x100) == b % 16 * 16 + c / 4
    ensures ByteAt(Word4(a, b, c, d), 1) == c % 4 * 64 + d
  {
    hide SextetAt, ByteAt;
    var w, x, y, z := Word4(a, b, c, d), a * 4 + b / 16, b % 16 * 16 + c / 4, c % 4 * 64 + d;
    ByteIs(w, 0x1_0000, 0, x, y * 256 + z);
    ByteIs(w, 0x100, x, y, z);
    ByteIs(w, 1, x * 256 + y, z, 0);
  }

  lemma ShortBytes(a: sextet, b: sextet, c: sextet)
    ensures ByteAt(Word2(a, b), 0x10) == a * 4 + b / 16
    ensures ByteAt(Word2(a, b) * 64 + c, 0x400) == a * 4 + b / 16
    ensures ByteAt(Word2(a, b) * 64 + c, 4) == b % 16 * 16 + c / 4
  {
    hide SextetAt, ByteAt;
    var x, y := a * 4 + b / 16, b % 16 * 16 + c / 4;
    ByteIs(Word2(a, b), 0x10, 0, x, b % 16);
    ByteIs(Word2(a, b) * 64 + c, 0x400, 0, x, y * 4 + c % 4);
    ByteIs(Word2(a, b) * 64 + c, 4, x, y, c % 4);
  }

  lemma OneByte(a: byte)
    ensures var w := Word3(a, 0, 0);
            ByteAt(Word2(SextetAt(w, 0x4_0000), SextetAt(w, 0x1000)), 0x10) == a && SextetAt(w, 0x1000) % 16 == 0
  {
    hide SextetAt, ByteAt;
    var w := Word3(a, 0, 0);
    SextetIs(w, 0x4_0000, 0, a / 4, a % 4 * 0x1_0000);
    SextetIs(w, 0x1000, a / 4, a % 4 * 16, 0);
    ShortBytes(a / 4, a % 4 * 16, 0);
  }

  lemma TwoBytes(a: byte, b: byte)
    ensures var w := Word3(a, b, 0);
            var v := Word2(SextetAt(w, 0x4_0000), SextetAt(w, 0x1000)) * 64 + SextetAt(w, 0x40);
            ByteAt(v, 0x400) == a && ByteAt(v, 4) == b && SextetAt(w, 0x40) % 4 == 0
  {
    hide SextetAt, ByteAt;
    var w := Word3(a, b, 0);
    SextetIs(w, 0x4_0000, 0, a / 4, (a % 4 * 256 + b) * 256);
    SextetIs(w, 0x1000, a / 4, a % 4 * 16 + b / 16, b % 16 * 256);
    SextetIs(w, 0x40, a / 4 * 64 + a % 4 * 16 + b / 16, b % 16 * 4, 0);
    ShortBytes(a / 4, a % 4 * 16 + b / 16, b % 16 * 4);
  }

  /** Decoding undoes encoding, on digits. */
  lemma {:induction false} BytesDigits(s: seq<byte>)
    ensures Bytes(Digits(s)) == s && |Digits(s)| % 4 != 1 && SpareZero(Digits(s))
  {
    hide SextetAt, ByteAt, Word3, Word2, Word4;
    if |s| == 1 {
      OneByte(s[0]);
    } else if |s| == 2 {
      TwoBytes(s[0], s[1]);
    } else if |s| >= 3 {
      BytesDigits(s[3..]);
      Triple(s[0], s[1], s[2]);
      assert Digits(s)[4..] == Digits(s[3..]);
      assert s == [s[0], s[1], s[2]] + s[3..];
    }
  }

  /** Encoding undoes decoding exactly when the spare bits are zero. */
  lemma {:induction false} DigitsBytes(ds: seq<sextet>)
    requires |ds| % 4 != 1
    ensures Digits(Bytes(ds)) == ds <==> SpareZero(ds)
    ensures |Digits(Bytes(ds))| == |ds|
  {
    hide SextetAt, ByteAt, Word3, Word2, Word4;
    if |ds| >= 4 {
      DigitsBytes(ds[4..]);
      Quad(ds[0], ds[1], ds[2], ds[3]);
      assert Bytes(ds)[3..] == Bytes(ds[4..]);
      assert Digits(Bytes(ds))[4..] == Digits(Bytes(ds[4..]));
      assert ds == [ds[0], ds[1], ds[2], ds[3]] + ds[4..];
    } else if |ds| == 3 {
      ThreeLeft(ds[0], ds[1], ds[2]);
    } else if |ds| == 2 {
      TwoLeft(ds[0], ds[1]);
    }
  }

  lemma ThreeLeft(a: sextet, b: sextet, c: sextet)
    ensures var w := Word2(a, b) * 64 + c;
            var x := Word3(ByteAt(w, 0x400), ByteAt(w, 4), 0);
            SextetAt(x, 0x4_0000) == a && SextetAt(x, 0x1000) == b && (SextetAt(x, 0x40) == c <==> c % 4 == 0)
  {
    hide SextetAt, ByteAt;
    ShortBytes(a, b, c);
    LeadBytes(a, b, c / 4 * 4, 0);
    assert c / 4 * 4 / 4 == c / 4 && c / 4 * 4 % 4 == 0;
    Quad(a, b, c / 4 * 4, 0);
  }

  lemma TwoLeft(a: sextet, b: sextet)
    ensures var x := Word3(ByteAt(Word2(a, b), 0x10), 0, 0);
            SextetAt(x, 0x4_0000) == a && (SextetAt(x, 0x1000) == b <==> b % 16 == 0)
  {
    hide SextetAt, ByteAt;
    ShortBytes(a, b, 0);
    LeadBytes(a, b / 16 * 16, 0, 0);
    assert b / 16 * 16 / 16 == b / 16 && b / 16 * 16 % 16 == 0;
    Quad(a, b / 16 * 16, 0, 0);
  }

  // ---- base64 text ----

  function Chars(ds: seq<sextet>): (t: string)
    ensures |t| == |ds| && forall i | 0 <= i < |ds| :: t[i] == Char64(ds[i])
  {
    seq(|ds|, i requires 0 <= i < |ds| => Char64(ds[i]))
  }

  function Pads(n: nat): (t: string)
    ensures |t| == n && forall i | 0 <= i < n :: t[i] == '='
  {
    seq(n, _ => '=')
  }

  /** Text for a byte string: its digits, padded to whole groups of four. */
  function Encode64(s: seq<byte>): string {
    var ds := Digits(s);
    Chars(ds) + Pads((4 - |ds| % 4) % 4)
  }

  function Stripped(t: string): (r: string)
    ensures r <= t
  {
    if t != "" && t[|t| - 1] == '=' then Stripped(t[..|t| - 1]) else t
  }

  /** Where the first character outside the alphabet is. */
  function FirstBad(t: string, from: nat): (r: Option<nat>)
    requires from <= |t|
    ensures r.None? ==> forall i | from <= i < |t| :: Digit64(t[i]).Some?
    ensures r.Some? ==> from <= r.value < |t| && Digit64(t[r.value]).None?
    decreases |t| - from
  {
    if from == |t| then None else if Digit64(t[from]).None? then Some(from) else FirstBad(t, from + 1)
  }

  predicate InAlphabet(t: string) {
    forall i | 0 <= i < |t| :: Digit64(t[i]).Some?
  }

  function DigitsOf(t: string): (ds: seq<sextet>)
    requires InAlphabet(t)
    ensures |ds| == |t| && forall i | 0 <= i < |t| :: ds[i] == Digit64(t[i]).value
  {
    seq(|t|, i requires 0 <= i < |t| => Digit64(t[i]).value)
  }

  /** `base64decodecmd`. */
  function Decode64(t: string): Result<seq<byte>> {
    var body := Stripped(t);
    if |t| % 4 != 0 || |t| - |body| > 2 then BadLength
    else if |body| % 4 == 1 then BadLength
    else match FirstBad(body, 0)
      case Some(i) => BadCharacter(i)
      case None => Ok(Bytes(DigitsOf(body)))
  }

  lemma {:induction false} StripPads(t: string, n: nat)
    requires t == "" || t[|t| - 1] != '='
    ensures Stripped(t + Pads(n)) == t
  {
    if n > 0 {
      StripPads(t, n - 1);
      assert (t + Pads(n))[..|t| + n - 1] == t + Pads(n - 1);
    } else {
      assert t + Pads(0) == t;
    }
  }

  lemma {:induction false} StripRest(t: string)
    ensures t == Stripped(t) + Pads(|t| - |Stripped(t)|)
    ensures Stripped(t) != "" ==> Stripped(t)[|Stripped(t)| - 1] != '='
  {
    if t != "" && t[|t| - 1] == '=' {
      StripRest(t[..|t| - 1]);
    }
  }

  lemma CharsDigits(ds: seq<sextet>)
    ensures InAlphabet(Chars(ds)) && DigitsOf(Chars(ds)) == ds
    ensures ds != [] ==> Chars(ds)[|ds| - 1] != '='
  {
    hide Char64, Digit64;
    forall i | 0 <= i < |ds| ensures Digit64(Chars(ds)[i]) == Some(ds[i]) && Chars(ds)[i] != '=' {
      Alphabet(ds[i], 'A');
    }
  }

  lemma CharsSame(es: seq<sextet>, body: string)
    requires |es| == |body| && InAlphabet(body)
    ensures Chars(es) == body <==> es == DigitsOf(body)
  {
    hide Char64, Digit64;
    forall i | 0 <= i < |es| ensures Chars(es)[i] == body[i] <==> es[i] == DigitsOf(body)[i] {
      Alphabet(es[i], body[i]);
    }
  }

  lemma PadSize(n: nat, k: nat)
    ensures (n + (4 - n % 4) % 4) % 4 == 0
    ensures n % 4 != 1 ==> (4 - n % 4) % 4 <= 2
    ensures k <= 2 && (n + k) % 4 == 0 ==> k == (4 - n % 4) % 4
  {
  }

  lemma NoBad(t: string)
    requires InAlphabet(t)
    ensures FirstBad(t, 0).None?
  {
  }

  /** Decoding undoes encoding, for every byte string. */
  lemma RoundTrip64(s: seq<byte>)
    ensures Decode64(Encode64(s)) == Ok(s)
  {
    hide Digits, Bytes, Stripped, FirstBad, InAlphabet, Chars, Pads, DigitsOf, Char64, Digit64;
    var ds := Digits(s);
    BytesDigits(s);
    CharsDigits(ds);
    PadSize(|ds|, 0);
    StripPads(Chars(ds), (4 - |ds| % 4) % 4);
    NoBad(Chars(ds));
  }

  /** The decoder accepts exactly whole groups of four from the alphabet with at most two pads at the end. */
  lemma Accepts64(t: string)
    ensures Decode64(t).Ok? <==> |t| % 4 == 0 && |t| - |Stripped(t)| <= 2 && InAlphabet(Stripped(t))
  {
    var body := Stripped(t);
    if InAlphabet(body) {
      assert FirstBad(body, 0).None?;
    }
  }

  /** Encoding gives the same text back exactly when the bits left over are zero. */
  lemma Canonical64(t: string)
    requires Decode64(t).Ok?
    ensures InAlphabet(Stripped(t)) && (Encode64(Decode64(t).value) == t <==> SpareZero(DigitsOf(Stripped(t))))
  {
    Accepts64(t);
    hide Digits, Bytes, Stripped, FirstBad, InAlphabet, Chars, Pads, DigitsOf, Char64, Digit64, SpareZero;
    var body := Stripped(t);
    NoBad(body);
    var ds := DigitsOf(body);
    DigitsBytes(ds);
    StripRest(t);
    PadSize(|ds|, |t| - |body|);
    var es := Digits(Bytes(ds));
    CharsSame(es, body);
    SamePrefix(Chars(es), body, Pads(|t| - |body|));
  }

  lemma SamePrefix(a: string, b: string, c: string)
    requires |a| == |b|
    ensures a + c == b + c <==> a == b
  {
    if a + c == b + c {
      assert a == (a + c)[..|a|] && b == (b + c)[..|b|];
    }
  }

  // ---- the loops ----

  lemma CharsParts(a: seq<sextet>, b: seq<sextet>)
    ensures Chars(a + b) == Chars(a) + Chars(b)
  {
    hide Char64;
  }

  lemma CharsFour(a: sextet, b: sextet, c: sextet, d: sextet)
    ensures Chars([a, b, c, d]) == [Char64(a), Char64(b), Char64(c), Char64(d)]
  {
    hide Char64;
  }

  lemma PadsSame(n: nat)
    ensures (4 - (n + 4) % 4) % 4 == (4 - n % 4) % 4
  {
  }

  lemma DigitsFour(s: seq<byte>)
    requires |s| >= 3
    ensures var w := Word3(s[0], s[1], s[2]);
            Digits(s) == [SextetAt(w, 0x4_0000), SextetAt(w, 0x1000), SextetAt(w, 0x40), SextetAt(w, 1)]
                + Digits(s[3..])
  {
    hide SextetAt, Word3;
  }

  lemma EncodeStep(s: seq<byte>)
    requires |s| >= 3
    ensures var w := Word3(s[0], s[1], s[2]);
            Encode64(s) == [Char64(SextetAt(w, 0x4_0000)), Char64(SextetAt(w, 0x1000)), Char64(SextetAt(w, 0x40)),
                Char64(SextetAt(w, 1))]
                           + Encode64(s[3..])
  {
    hide SextetAt, Word3, Digits, Chars, Pads, Char64;
    var w, more := Word3(s[0], s[1], s[2]), Digits(s[3..]);
    var a, b, c, d := SextetAt(w, 0x4_0000), SextetAt(w, 0x1000), SextetAt(w, 0x40), SextetAt(w, 1);
    DigitsFour(s);
    CharsParts([a, b, c, d], more);
    CharsFour(a, b, c, d);
    PadsSame(|more|);
    EncodeMore([a, b, c, d], more);
  }

  lemma EncodeMore(four: seq<sextet>, more: seq<sextet>)
    requires |four| == 4
    ensures var ds := four + more;
            Chars(ds) + Pads((4 - |ds| % 4) % 4) == Chars(four) + (Chars(more) + Pads((4 - |more| % 4) % 4))
  {
    hide Chars, Pads;
    CharsParts(four, more);
    PadsSame(|more|);
  }

  /** The text of the group of up to three bytes that starts at `i`. */
  method Group(src: seq<byte>, i: nat) returns (group: string)
    requires i < |src|
    ensures |src| - i >= 3 ==> Encode64(src[i..]) == group + Encode64(src[i + 3..])
    ensures |src| - i < 3 ==> Encode64(src[i..]) == group
  {
    hide SextetAt, Char64, Encode64;
    var w: nat := src[i];
    w := w * 0x1_0000;
    if i + 1 < |src| {
      w := w + (src[i + 1] as int) * 0x100;
    }
    if i + 2 < |src| {
      w := w + src[i + 2];
    }
    group := [Char64(SextetAt(w, 0x4_0000)), Char64(SextetAt(w, 0x1000)),
              if i + 1 < |src| then Char64(SextetAt(w, 0x40)) else '=',
              if i + 2 < |src| then Char64(SextetAt(w, 1)) else '='];
    ghost var rest := src[i..];
    if |rest| >= 3 {
      EncodeStep(rest);
      assert rest[3..] == src[i + 3..];
    } else {
      EncodeShort(rest);
    }
  }

  lemma EncodeShort(s: seq<byte>)
    requires 0 < |s| < 3
    ensures var w := Word3(s[0], if |s| == 2 then s[1] else 0, 0);
            Encode64(s) == [Char64(SextetAt(w, 0x4_0000)), Char64(SextetAt(w, 0x1000)),
                            if |s| == 2 then Char64(SextetAt(w, 0x40)) else '=', '=']
  {
    hide SextetAt, Char64;
  }

  /** `base64encodecmd`: three bytes at a time. */
  method Base64Encode(src: seq<byte>) returns (out: string)
    ensures out == Encode64(src)
  {
    hide Encode64;
    out := "";
    var i := 0;
    EncodeNone();
    while i < |src|
      invariant 0 <= i
      invariant out + Encode64(if i <= |src| then src[i..] else []) == Encode64(src)
      decreases |src| - i
    {
      var group := Group(src, i);
      out := out + group;
      i := i + 3;
    }
    assert (if i <= |src| then src[i..] else []) == [];
  }

  lemma EncodeNone()
    ensures Encode64([]) == ""
  {
  }

  /** Whole groups come first. */
  lemma {:induction false} BytesTail(ds: seq<sextet>, tail: seq<sextet>)
    requires |ds| % 4 == 0
    ensures Bytes(ds + tail) == Bytes(ds) + Bytes(tail)
  {
    hide ByteAt;
    if ds == [] {
      assert ds + tail == tail;
    } else {
      BytesTail(ds[4..], tail);
      assert (ds + tail)[4..] == ds[4..] + tail;
    }
  }

  /** `base64decodecmd`: digits are shifted into a word, which is written out at every fourth. */
  method Base64Decode(src: string) returns (r: Result<seq<byte>>)
    ensures r == Decode64(src)
  {
    var n := |src|;
    assert src[..n] == src;
    while n > 0 && src[n - 1] == '='
      invariant n <= |src| && Stripped(src[..n]) == Stripped(src)
    {
      assert src[..n][..n - 1] == src[..n - 1];
      n := n - 1;
    }
    assert Stripped(src) == src[..n];
    if (|src| % 4 != 0 && |src| != 0) || |src| - n > 2 {
      return BadLength;
    }
    if n % 4 == 1 {
      return BadLength;
    }
    r := DecodeBody(src[..n]);
  }

  method DecodeBody(body: string) returns (r: Result<seq<byte>>)
    requires |body| % 4 != 1
    ensures r == match FirstBad(body, 0) case Some(i) => BadCharacter(i) case None => Ok(Bytes(DigitsOf(body)))
  {
    hide Digit64, ByteAt, Word2, Bytes;
    var out: seq<byte> := [];
    var w: nat, nb: nat, i: nat := 0, 0, 0;
    ghost var done: seq<sextet>, part: seq<sextet> := [], [];
    NoBytes();
    while i < |body|
      invariant i <= |body| && nb == |part| < 4 && |done| % 4 == 0 && |done| + nb == i
      invariant FirstBad(body, i) == FirstBad(body, 0)
      invariant forall k | 0 <= k < i :: Digit64(body[k]) == Some((done + part)[k])
      invariant out == Bytes(done) && w == Value(part)
    {
      var d := Digit64(body[i]);
      if d.None? {
        return BadCharacter(i);
      }
      ValueNext(part, d.value);
      w, nb := w * 64 + d.value, nb + 1;
      ghost var more := part + [d.value];
      assert (done + more)[i] == d.value;
      if nb == 4 {
        WholeGroup(done, more, w);
        out := out + [ByteAt(w, 0x1_0000), ByteAt(w, 0x100), ByteAt(w, 1)];
        done, part := done + more, [];
        nb, w := 0, 0;
      } else {
        part := more;
      }
      i := i + 1;
    }
    assert done + part == DigitsOf(body);
    BytesTail(done, part);
    LastGroup(part, w);
    assert FirstBad(body, 0).None?;
    assert out + [] == out;
    if nb == 3 {
      out := out + [ByteAt(w, 0x400), ByteAt(w, 4)];
    } else if nb == 2 {
      out := out + [ByteAt(w, 0x10)];
    }
    r := Ok(out);
  }

  /** What the shifts make of a few digits. */
  function Value(part: seq<sextet>): nat {
    if part == [] then 0 else Value(part[..|part| - 1]) * 64 + part[|part| - 1]
  }

  lemma NoBytes()
    ensures Bytes([]) == [] && Value([]) == 0
  {
  }

  lemma ValueNext(part: seq<sextet>, d: sextet)
    ensures Value(part + [d]) == Value(part) * 64 + d
  {
    assert (part + [d])[..|part|] == part;
  }

  lemma ValueIs(part: seq<sextet>)
    ensures |part| == 2 ==> Value(part) == Word2(part[0], part[1])
    ensures |part| == 3 ==> Value(part) == Word2(part[0], part[1]) * 64 + part[2]
    ensures |part| == 4 ==> Value(part) == Word4(part[0], part[1], part[2], part[3])
  {
    if 2 <= |part| <= 4 {
      ValueNext([], part[0]);
      assert [] + [part[0]] == [part[0]];
      ValueNext([part[0]], part[1]);
      assert [part[0]] + [part[1]] == part[..2];
      if |part| >= 3 {
        ValueNext(part[..2], part[2]);
        assert part[..2] + [part[2]] == part[..3];
      }
      if |part| == 4 {
        ValueNext(part[..3], part[3]);
        assert part[..3] + [part[3]] == part;
      }
      assert |part| == 2 ==> part[..2] == part;
      assert |part| == 3 ==> part[..3] == part;
    }
  }

  lemma WholeGroup(done: seq<sextet>, part: seq<sextet>, w: nat)
    requires |done| % 4 == 0 && |part| == 4 && w == Value(part)
    ensures Bytes(done + part) == Bytes(done) + [ByteAt(w, 0x1_0000), ByteAt(w, 0x100), ByteAt(w, 1)]
  {
    hide ByteAt, Word4, Value;
    ValueIs(part);
    BytesTail(done, part);
    assert part[4..] == [] && Bytes([]) == [];
  }

  lemma LastGroup(part: seq<sextet>, w: nat)
    requires |part| < 4 && |part| != 1 && w == Value(part)
    ensures Bytes(part) == if |part| == 3 then [ByteAt(w, 0x400), ByteAt(w, 4)] else if |part| == 2
        then [ByteAt(w, 0x10)] else []
  {
    hide ByteAt, Word2, Value;
    ValueIs(part);
  }

  // ---- hexadecimal ----

  type nibble = x: int | 0 <= x < 16

  function CharHex(d: nibble): char {
    if d < 10 then ('0' as int + d) as char else ('a' as int + d - 10) as char
  }

  /** Either case is read. */
  function DigitHex(c: char): Option<nibble> {
    if '0' <= c <= '9' then Some(c as int - '0' as int)
    else if 'a' <= c <= 'f' then Some(c as int - 'a' as int + 10)
    else if 'A' <= c <= 'F' then Some(c as int - 'A' as int + 10) else None
  }

  function Lower(c: char): char {
    if 'A' <= c <= 'Z' then (c as int + 32) as char else c
  }

  function EncodeHex(s: seq<byte>): (t: string)
    ensures |t| == 2 * |s|
  {
    if s == [] then "" else [CharHex(s[0] / 16), CharHex(s[0] % 16)] + EncodeHex(s[1..])
  }

  function BytesHex(t: string): (s: seq<byte>)
    requires |t| % 2 == 0 && forall i | 0 <= i < |t| :: DigitHex(t[i]).Some?
    ensures |s| == |t| / 2
  {
    if t == "" then [] else [DigitHex(t[0]).value * 16 + DigitHex(t[1]).value] + BytesHex(t[2..])
  }

  function FirstBadHex(t: string, from: nat): (r: Option<nat>)
    requires from <= |t|
    ensures r.None? ==> forall i | from <= i < |t| :: DigitHex(t[i]).Some?
    ensures r.Some? ==> from <= r.value < |t| && DigitHex(t[r.value]).None?
    decreases |t| - from
  {
    if from == |t| then None else if DigitHex(t[from]).None? then Some(from) else FirstBadHex(t, from + 1)
  }

  /** `hexdecodecmd`. */
  function DecodeHex(t: string): Result<seq<byte>> {
    if |t| % 2 != 0 then BadLength
    else match FirstBadHex(t, 0)
      case Some(i) => BadCharacter(i)
      case None => Ok(BytesHex(t))
  }

  function LowerAll(t: string): (r: string)
    ensures |r| == |t| && forall i | 0 <= i < |t| :: r[i] == Lower(t[i])
  {
    seq(|t|, i requires 0 <= i < |t| => Lower(t[i]))
  }

  lemma HexDigit(d: nibble, c: char)
    ensures DigitHex(CharHex(d)) == Some(d)
    ensures DigitHex(c).Some? ==> CharHex(DigitHex(c).value) == Lower(c)
  {
  }

  lemma {:induction false} HexAlphabet(s: seq<byte>)
    ensures forall i | 0 <= i < |EncodeHex(s)| :: DigitHex(EncodeHex(s)[i]).Some?
    ensures BytesHex(EncodeHex(s)) == s
  {
    if s != [] {
      HexAlphabet(s[1..]);
      HexDigit(s[0] / 16, '0');
      HexDigit(s[0] % 16, '0');
      var t := EncodeHex(s);
      assert t[2..] == EncodeHex(s[1..]);
      forall i | 0 <= i < |t| ensures DigitHex(t[i]).Some? {
        if i >= 2 {
          assert t[i] == t[2..][i - 2];
        }
      }
      assert BytesHex(t) == [DigitHex(t[0]).value * 16 + DigitHex(t[1]).value] + BytesHex(t[2..]);
    }
  }

  /** Decoding undoes encoding, for every byte string. */
  lemma RoundTripHex(s: seq<byte>)
    ensures DecodeHex(EncodeHex(s)) == Ok(s)
  {
    HexAlphabet(s);
  }

  lemma {:induction false} EncodeBytesHex(t: string)
    requires |t| % 2 == 0 && forall i | 0 <= i < |t| :: DigitHex(t[i]).Some?
    ensures EncodeHex(BytesHex(t)) == LowerAll(t)
  {
    if t != "" {
      EncodeBytesHex(t[2..]);
      var a, b := DigitHex(t[0]).value, DigitHex(t[1]).value;
      Divide((a as int) * 16 + b, a, 16, b);
      HexDigit(a, t[0]);
      HexDigit(b, t[1]);
      assert BytesHex(t)[1..] == BytesHex(t[2..]);
      assert LowerAll(t) == [Lower(t[0]), Lower(t[1])] + LowerAll(t[2..]);
    }
  }

  /** The decoder accepts exactly pairs of hexadecimal digits, and encoding what it gives lowers the case. */
  lemma CanonicalHex(t: string)
    ensures DecodeHex(t).Ok? <==> |t| % 2 == 0 && forall i | 0 <= i < |t| :: DigitHex(t[i]).Some?
    ensures DecodeHex(t).Ok? ==> EncodeHex(DecodeHex(t).value) == LowerAll(t)
  {
    if DecodeHex(t).Ok? {
      EncodeBytesHex(t);
    }
  }

  /** `hexencodecmd`. */
  method HexEncode(src: seq<byte>) returns (out: string)
    ensures out == EncodeHex(src)
  {
    out := "";
    var i := 0;
    while i < |src|
      invariant 0 <= i <= |src| && out + EncodeHex(src[i..]) == EncodeHex(src)
    {
      assert src[i..][1..] == src[i + 1..];
      out := out + [CharHex(src[i] / 16), CharHex(src[i] % 16)];
      i := i + 1;
    }
  }

  lemma {:induction false} HexPrefix(t: string, n: nat)
    requires n % 2 == 0 && n + 2 <= |t| && forall i | 0 <= i < n + 2 :: DigitHex(t[i]).Some?
    ensures BytesHex(t[..n + 2]) == BytesHex(t[..n]) + [DigitHex(t[n]).value * 16 + DigitHex(t[n + 1]).value]
  {
    if n > 0 {
      HexPrefix(t[2..], n - 2);
      assert t[..n + 2][2..] == t[2..][..n] && t[..n][2..] == t[2..][..n - 2];
    }
  }

  lemma EmptyHex()
    ensures BytesHex("") == []
  {
  }

  /** `hexdecodecmd`: a byte is started at every even character and finished at the next. */
  method HexDecode(src: string) returns (r: Result<seq<byte>>)
    ensures r == DecodeHex(src)
  {
    hide DigitHex, BytesHex;
    if |src| % 2 != 0 {
      return BadLength;
    }
    EmptyHex();
    var out: seq<byte> := [];
    var i, high := 0, 0;
    while i < |src|
      invariant i <= |src| && FirstBadHex(src, i) == FirstBadHex(src, 0)
      invariant forall k | 0 <= k < i :: DigitHex(src[k]).Some?
      invariant i % 2 == 1 ==> high == (DigitHex(src[i - 1]).value as int) * 16
      invariant out == BytesHex(src[..i - i % 2])
    {
      var d := DigitHex(src[i]);
      if d.None? {
        return BadCharacter(i);
      }
      if i % 2 == 1 {
        HexPrefix(src, i - 1);
        out := out + [high + d.value];
      } else {
        high := (d.value as int) * 16;
      }
      i := i + 1;
    }
    assert src[..i] == src;
    r := Ok(out);
  }
}
