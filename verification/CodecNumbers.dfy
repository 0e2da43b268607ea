/** What encoded texts spell: the same number as the bytes, in digits of the alphabets of RFC 4648. */
module CodecNumbers {
  import opened Codecs

  const UPPER: string := "ABCDEFGHIJKLMNOPQRSTUVWXYZ"
  const LOWER: string := "abcdefghijklmnopqrstuvwxyz"
  const ALPHABET64: string := UPPER + LOWER + "0123456789+/"
  const ALPHABET16: string := "0123456789abcdef"

  /** The number that bytes are, most significant first, behind `acc`. */
  function Number256(acc: nat, s: seq<byte>): nat
    decreases |s|
  {
    if s == [] then acc else Number256(acc * 256 + s[0], s[1..])
  }

  function Number64(acc: nat, ds: seq<sextet>): nat
    decreases |ds|
  {
    if ds == [] then acc else Number64(acc * 64 + ds[0], ds[1..])
  }

  function Number16(acc: nat, ds: seq<nibble>): nat
    decreases |ds|
  {
    if ds == [] then acc else Number16(acc * 16 + ds[0], ds[1..])
  }

  lemma UpperAt(d: nat)
    requires d < 26
    ensures |UPPER| == 26 && UPPER[d] == 'A' + d as char
  {
    if d < 13 {
      assert UPPER[..13] == "ABCDEFGHIJKLM";
      assert UPPER[..13][d] == 'A' + d as char;
    } else {
      assert UPPER[13..] == "NOPQRSTUVWXYZ";
      assert UPPER[13..][d - 13] == 'N' + (d - 13) as char;
    }
  }

  lemma LowerAt(d: nat)
    requires d < 26
    ensures |LOWER| == 26 && LOWER[d] == 'a' + d as char
  {
    if d < 13 {
      assert LOWER[..13] == "abcdefghijklm";
      assert LOWER[..13][d] == 'a' + d as char;
    } else {
      assert LOWER[13..] == "nopqrstuvwxyz";
      assert LOWER[13..][d - 13] == 'n' + (d - 13) as char;
    }
  }

  /** A digit is written as the character at its place in the alphabet. */
  lemma Alphabet64(d: sextet)
    ensures |ALPHABET64| == 64 && Char64(d) == ALPHABET64[d]
  {
    UpperAt(if d < 26 then d else 0);
    LowerAt(if 26 <= d < 52 then d - 26 else 0);
    if 52 <= d {
      assert ALPHABET64[d] == "0123456789+/"[d - 52];
    }
  }

  lemma Alphabet16(d: nibble)
    ensures |ALPHABET16| == 16 && CharHex(d) == ALPHABET16[d]
  {
  }

  /** What a short last group is shifted by. */
  function Spare(n: nat): nat {
    if n % 3 == 0 then 1 else if n % 3 == 1 then 16 else 4
  }

  lemma Step64(acc: nat, d: sextet, more: seq<sextet>)
    ensures Number64(acc, [d] + more) == Number64(acc * 64 + d, more)
  {
    assert ([d] + more)[1..] == more;
  }

  lemma FourDigits(acc: nat, a: sextet, b: sextet, c: sextet, d: sextet, more: seq<sextet>)
    ensures Number64(acc, [a, b, c, d] + more) == Number64(acc * 0x100_0000 + Word4(a, b, c, d), more)
  {
    hide Number64;
    Step64(acc, a, [b] + ([c] + ([d] + more)));
    Step64(acc * 64 + a, b, [c] + ([d] + more));
    Step64((acc * 64 + a) * 64 + b, c, [d] + more);
    Step64(((acc * 64 + a) * 64 + b) * 64 + c, d, more);
    assert [a, b, c, d] + more == [a] + ([b] + ([c] + ([d] + more)));
  }

  lemma Step256(acc: nat, s: seq<byte>)
    requires s != []
    ensures Number256(acc, s) == Number256(acc * 256 + s[0], s[1..])
  {
  }

  lemma ThreeBytes(acc: nat, s: seq<byte>)
    requires |s| >= 3
    ensures Number256(acc, s) == Number256(acc * 0x100_0000 + Word3(s[0], s[1], s[2]), s[3..])
  {
    hide Number256;
    Step256(acc, s);
    Step256(acc * 256 + s[0], s[1..]);
    assert s[1..][1..] == s[2..] && s[2..][1..] == s[3..];
    Step256((acc * 256 + s[0]) * 256 + s[1], s[2..]);
  }

  lemma NumbersEnd(acc: nat)
    ensures Number64(acc, []) == acc && Number256(acc, []) == acc
  {
  }

  lemma NoDigits()
    ensures Digits([]) == []
  {
  }

  lemma WordFits(a: byte, b: byte, c: byte)
    ensures Word3(a, b, c) < 0x100_0000
  {
  }

  lemma LastOne(acc: nat, s: seq<byte>)
    requires |s| == 1
    ensures Number64(acc, Digits(s)) == Number256(acc, s) * 16
  {
    hide SextetAt, Number64, Number256, Word3;
    var w := Word3(s[0], 0, 0);
    var a, b := SextetAt(w, 0x4_0000), SextetAt(w, 0x1000);
    Step256(acc, s);
    OneByte(s[0]);
    assert Digits(s) == [a] + ([b] + []) && s[1..] == [];
    Step64(acc, a, [b] + []);
    Step64(acc * 64 + a, b, []);
    NumbersEnd((acc * 64 + a) * 64 + b);
    NumbersEnd(acc * 256 + s[0]);
  }

  lemma LastTwo(acc: nat, s: seq<byte>)
    requires |s| == 2
    ensures Number64(acc, Digits(s)) == Number256(acc, s) * 4
  {
    hide SextetAt, Number64, Number256, Word3;
    var w := Word3(s[0], s[1], 0);
    var a, b, c := SextetAt(w, 0x4_0000), SextetAt(w, 0x1000), SextetAt(w, 0x40);
    var n := (acc * 64 + a) * 64 + b;
    Step256(acc, s);
    TwoBytes(s[0], s[1]);
    assert Digits(s) == [a] + ([b] + ([c] + [])) && s[1..][1..] == [];
    Step64(acc, a, [b] + ([c] + []));
    Step64(acc * 64 + a, b, [c] + []);
    Step64(n, c, []);
    NumbersEnd(n * 64 + c);
    Step256(acc * 256 + s[0], s[1..]);
    NumbersEnd((acc * 256 + s[0]) * 256 + s[1]);
  }

  lemma OneByte(x: byte)
    ensures var w := Word3(x, 0, 0); SextetAt(w, 0x4_0000) * 64 + SextetAt(w, 0x1000) == x * 16
  {
    var w := Word3(x, 0, 0);
    SextetIs(w, 0x4_0000, 0, x / 4, x % 4 * 0x1_0000);
    SextetIs(w, 0x1000, x / 4, x % 4 * 16, 0);
  }

  lemma TwoBytes(x: byte, y: byte)
    ensures var w := Word3(x, y, 0);
            (SextetAt(w, 0x4_0000) * 64 + SextetAt(w, 0x1000)) * 64 + SextetAt(w, 0x40) == (x * 256 + y) * 4
  {
    var w, b, c := Word3(x, y, 0), x % 4 * 16 + y / 16, y % 16 * 4;
    SextetIs(w, 0x4_0000, 0, x / 4, b * 0x1000 + c * 0x40);
    SextetIs(w, 0x1000, x / 4, b, c * 0x40);
    SextetIs(w, 0x40, x / 4 * 64 + b, c, 0);
  }

  /** The digits are the number that the bytes are, but for the zero bits that fill up a short last group. */
  lemma {:induction false} SameNumber(acc: nat, s: seq<byte>)
    ensures Number64(acc, Digits(s)) == Number256(acc, s) * Spare(|s|)
    decreases |s|
  {
    hide SextetAt, Word3, Number64, Number256, Digits;
    if s == [] {
      NumbersEnd(acc);
      NoDigits();
    } else if |s| == 1 {
      LastOne(acc, s);
    } else if |s| == 2 {
      LastTwo(acc, s);
    } else {
      var w := Word3(s[0], s[1], s[2]);
      WordFits(s[0], s[1], s[2]);
      Regroup(w);
      DigitsFour(s);
      FourDigits(acc, SextetAt(w, 0x4_0000), SextetAt(w, 0x1000), SextetAt(w, 0x40), SextetAt(w, 1), Digits(s[3..]));
      ThreeBytes(acc, s);
      SameNumber(acc * 0x100_0000 + w, s[3..]);
    }
  }

  /** Base64 text is the bytes' number in the digits of the alphabet, with pads up to a whole group of four. */
  lemma Spells64(s: seq<byte>)
    ensures var t, ds := Encode64(s), Digits(s);
            && |ds| <= |t| < |ds| + 4 && |t| % 4 == 0 && |ALPHABET64| == 64
            && (forall i | 0 <= i < |ds| :: t[i] == ALPHABET64[ds[i]]) && (forall i | |ds| <= i < |t| :: t[i] == '=')
            && Number64(0, ds) == Number256(0, s) * Spare(|s|)
  {
    hide Digits, Char64, Number64, Number256;
    SameNumber(0, s);
    Alphabet64(0);
    var t, ds := Encode64(s), Digits(s);
    forall i | 0 <= i < |ds| ensures t[i] == ALPHABET64[ds[i]] {
      Alphabet64(ds[i]);
    }
  }

  function Halves(s: seq<byte>): (r: seq<nibble>)
    ensures |r| == 2 * |s|
  {
    if s == [] then [] else [s[0] / 16, s[0] % 16] + Halves(s[1..])
  }

  /** Hexadecimal text is the bytes' number, two digits for each byte. */
  lemma {:induction false} Spells16(acc: nat, s: seq<byte>)
    ensures var t, ds := EncodeHex(s), Halves(s);
            && |t| == 2 * |s| && |ALPHABET16| == 16 && Number16(acc, ds) == Number256(acc, s)
            && forall i | 0 <= i < |t| :: t[i] == ALPHABET16[ds[i]]
    decreases |s|
  {
    Alphabet16(0);
    if s != [] {
      var a, b, ds := s[0] / 16, s[0] % 16, Halves(s);
      Alphabet16(a);
      Alphabet16(b);
      Spells16(acc * 256 + s[0], s[1..]);
      assert ds[1..] == [b] + Halves(s[1..]) && ds[1..][1..] == Halves(s[1..]);
      assert Number16(acc, ds) == Number16((acc * 16 + a) * 16 + b, Halves(s[1..]));
    }
  }
}
