/** Fixnum tags, exact powers and integer roots, in 64-bit machine arithmetic. */
module Numbers {
  import opened Wrappers

  const TWO_64: int := 0x1_0000_0000_0000_0000
  const TWO_63: int := 0x8000_0000_0000_0000
  const TWO_60: int := 0x1000_0000_0000_0000
  const TAG_FIX: int := 1

  predicate IsInt64(v: int) {
    -TWO_63 <= v < TWO_63
  }

  predicate IsWord(w: int) {
    0 <= w < TWO_64
  }

  // ---- tags ----

  /** `MAKE_FIX`: shifted up by three bits in 64-bit arithmetic, with the tag below. */
  function MakeFix(v: int): (w: int)
    requires IsInt64(v)
    ensures IsWord(w)
  {
    (v * 8) % TWO_64 + TAG_FIX
  }

  /** `FIX_VAL`: the word as a signed number, shifted down arithmetically. */
  function FixVal(w: int): int
    requires IsWord(w)
  {
    (if w >= TWO_63 then w - TWO_64 else w) / 8
  }

  predicate Fits(v: int) {
    -TWO_60 <= v < TWO_60
  }

  /** A number carries the tag 1 in its three lowest bits, and survives it exactly when it has 61 bits. */
  lemma TagRoundTrip(v: int)
    requires IsInt64(v)
    ensures MakeFix(v) % 8 == 1
    ensures FixVal(MakeFix(v)) == v <==> Fits(v)
  {
    var m := TWO_60 * 2;
    var u := v % m;
    assert v == (v / m) * m + u;
    assert v * 8 == (v / m) * TWO_64 + u * 8;
    Remainder(v * 8, v / m, u * 8);
    assert MakeFix(v) == u * 8 + 1;
    EightsAndOne(u);
    assert FixVal(MakeFix(v)) == if u >= TWO_60 then u - m else u;
  }

  lemma EightsAndOne(u: int)
    ensures (u * 8 + 1) % 8 == 1
  {
  }

  lemma Remainder(x: int, q: int, r: int)
    requires x == q * TWO_64 + r && 0 <= r < TWO_64
    ensures x % TWO_64 == r
  {
  }

  // ---- powers ----

  function Pow(b: int, k: nat): int {
    if k == 0 then 1 else b * Pow(b, k - 1)
  }

  lemma {:induction false} PowSquare(b: int, k: nat)
    ensures Pow(b * b, k) == Pow(b, 2 * k)
  {
    if k > 0 {
      PowSquare(b, k - 1);
      assert Pow(b, 2 * k) == b * Pow(b, 2 * k - 1) && Pow(b, 2 * k - 1) == b * Pow(b, 2 * k - 2);
      assert b * (b * Pow(b, 2 * k - 2)) == (b * b) * Pow(b, 2 * k - 2) by {
        Associate(b, b, Pow(b, 2 * k - 2));
      }
    }
  }

  lemma Associate(a: int, b: int, c: int)
    ensures a * (b * c) == (a * b) * c
  {
  }

  function Abs(x: int): nat {
    if x < 0 then -x else x
  }

  lemma AbsProduct(a: int, b: int)
    ensures Abs(a * b) == Abs(a) * Abs(b)
  {
    if a < 0 && b < 0 {
      assert a * b == (-a) * (-b);
    } else if a < 0 {
      assert a * b == -((-a) * b);
    } else if b < 0 {
      assert a * b == -(a * (-b));
    }
  }

  lemma NoSmaller(a: nat, b: nat)
    requires b >= 1
    ensures a * b >= a
  {
  }

  /** A product by a number that is not zero is no smaller. */
  lemma ProductAbs(a: int, b: int)
    requires b != 0
    ensures Abs(a * b) >= Abs(a)
  {
    AbsProduct(a, b);
    NoSmaller(Abs(a), Abs(b));
  }

  lemma {:induction false} PowNonZero(b: int, k: nat)
    requires b != 0
    ensures Pow(b, k) != 0
  {
    if k > 0 {
      PowNonZero(b, k - 1);
      ProductAbs(Pow(b, k - 1), b);
      assert b * Pow(b, k - 1) == Pow(b, k - 1) * b;
    }
  }

  /** `k & 1` and `k >> 1`. */
  lemma PowHalf(r: int, base: int, k: nat)
    requires k > 0
    ensures r * Pow(base, k) == (if k % 2 == 1 then r * base else r) * Pow(base * base, k / 2)
  {
    PowSquare(base, k / 2);
    if k % 2 == 1 {
      assert Pow(base, k) == base * Pow(base, 2 * (k / 2));
      Associate(r, base, Pow(base, 2 * (k / 2)));
    }
  }

  /** What is left of the power cannot bring an overflown product back into range. */
  lemma StaysOut(x: int, base: int, k: nat)
    requires !IsInt64(x) && base != 0
    ensures !Fits(x * Pow(base, k))
  {
    PowNonZero(base, k);
    ProductAbs(x, Pow(base, k));
  }

  lemma SquareOut(r: int, base: int, k: nat)
    requires !IsInt64(base * base) && r != 0 && k > 0
    ensures !Fits(r * Pow(base * base, k))
  {
    assert base != 0;
    var sq := base * base;
    PowNonZero(sq, k - 1);
    assert Pow(sq, k) == sq * Pow(sq, k - 1);
    ProductAbs(sq, Pow(sq, k - 1));
    ProductAbs(Pow(sq, k), r);
    assert r * Pow(sq, k) == Pow(sq, k) * r;
  }

  /** `exptcmd` on two fixnums with a non-negative exponent: the exact power, or an overflow. */
  method Expt(b: int, e: nat) returns (result: Option<int>)
    requires Fits(b)
    ensures result == if Fits(Pow(b, e)) then Some(Pow(b, e)) else None
  {
    var k, base, r := e, b, 1;
    while k > 0
      invariant IsInt64(r) && IsInt64(base) && (r == 0 ==> base == 0)
      invariant r * Pow(base, k) == Pow(b, e)
      decreases k
    {
      PowHalf(r, base, k);
      ghost var rest := Pow(base * base, k / 2);
      if k % 2 == 1 {
        if !IsInt64(r * base) {
          assert base != 0;
          SquareNonZero(base);
          StaysOut(r * base, base * base, k / 2);
          return None;
        }
        NonZeroProduct(r, base);
        r := r * base;
      }
      k := k / 2;
      if k > 0 {
        if !IsInt64(base * base) {
          assert r != 0;
          SquareOut(r, base, k);
          return None;
        }
        base := base * base;
      }
    }
    result := if Fits(r) then Some(r) else None;
  }

  lemma SquareNonZero(x: int)
    requires x != 0
    ensures x * x != 0
  {
  }

  lemma NonZeroProduct(a: int, b: int)
    ensures a * b == 0 ==> a == 0 || b == 0
  {
  }

  // ---- roots ----

  predicate IsRoot(r: int, n: int) {
    0 <= r && r * r <= n < (r + 1) * (r + 1)
  }

  lemma Squares(a: nat, b: nat)
    ensures a <= b <==> a * a <= b * b
  {
    if a <= b {
      assert a * a <= a * b && a * b <= b * b;
    } else {
      assert b * b <= a * b && a * b < a * a;
    }
  }

  /** `sqrtintcmd`: from whatever whole seed the floating-point root gives, as long as its successor's square
      still fits a machine word, the loops arrive at the floor of the root. */
  method SqrtInt(n: int, seed: nat) returns (r: nat)
    requires Fits(n) && seed < 0xFFFF_FFFF
    ensures n < 0 ==> r == 0
    ensures n >= 0 ==> IsRoot(r, n)
  {
    if n < 0 {
      return 0;
    }
    r := seed;
    while Wrap((r + 1) * (r + 1)) <= n
      invariant r < 0xFFFF_FFFF && (r > seed ==> r * r <= n)
      decreases 0xFFFF_FFFF - r
    {
      Squares(r + 1, 0xFFFF_FFFF);
      assert 0xFFFF_FFFF * 0xFFFF_FFFF < TWO_64;
      assert (r + 1) * (r + 1) <= n;
      Squares(r + 1, 0x4000_0000);
      r := r + 1;
    }
    Squares(r + 1, 0xFFFF_FFFF);
    assert (r + 1) * (r + 1) > n;
    while Wrap(r * r) > n
      invariant r < 0xFFFF_FFFF && (r + 1) * (r + 1) > n
      decreases r
    {
      Squares(r, 0xFFFF_FFFF);
      assert r > 0;
      r := r - 1;
    }
    Squares(r, 0xFFFF_FFFF);
  }

  function Wrap(x: nat): nat {
    x % TWO_64
  }

  /** The root is the only one. */
  lemma RootUnique(r: nat, s: nat, n: int)
    requires IsRoot(r, n) && IsRoot(s, n)
    ensures r == s
  {
    Squares(r + 1, s);
    Squares(s + 1, r);
  }
}
