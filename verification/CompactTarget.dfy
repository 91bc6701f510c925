/**
 Compressing a number to a compact target (GetCompact, src/arith_uint256.cpp:195-216), and what
 remains of it when SetCompact reads that target back.
 */
module CompactTargets {
  import opened Numbers
  import opened Limbs
  import opened ArithUint
  import opened ArithShift
  import opened ArithMulDiv
  import opened BlockWork

  /** s bytes hold x and leave the top bit, the sign, clear. */
  predicate Fits(x: nat, s: nat) {
    if s == 0 then x == 0 else x < Pow2(8 * s - 1)
  }

  /** The fewest bytes that do. */
  predicate IsSize(x: nat, s: nat) {
    Fits(x, s) && (s > 0 ==> !Fits(x, s - 1))
  }

  /** x in units of 256^(s - 3). */
  function Scale(x: nat, s: nat): nat {
    if s <= 3 then x * Pow2(8 * (3 - s)) else Shr(x, 8 * (s - 3))
  }

  /** What the lowest bit of the mantissa is worth, for numbers that are rounded at all. */
  function Unit(s: nat): (u: nat)
    ensures u > 0
  {
    if s <= 3 then 1 else Pow2(8 * (s - 3))
  }

  /** c is the compact form of x, or of -x. */
  predicate Encodes(x: nat, negative: bool, c: nat) {
    && IsSize(x, Exponent(c)) && Mantissa(c) == Scale(x, Exponent(c))
    && (SignBit(c) <==> negative && x != 0)
  }

  /** Compact forms that come from a number: no wasted byte, no bits below the units, in range. */
  predicate Canonical(c: nat) {
    var m, e := Mantissa(c), Exponent(c);
    c == 0 || (m >= 0x8000 && (e < 3 ==> m % Pow2(8 * (3 - e)) == 0) && Target(c) < Pow2(BITS))
  }

  // ---------------------------------------------------------------- parts of a compact form

  lemma PartsUnique(c: nat, c': nat)
    requires Exponent(c) == Exponent(c') && Mantissa(c) == Mantissa(c') && (SignBit(c) <==> SignBit(c'))
    ensures c == c'
  {
  }

  lemma PartsOfSum(size: nat, word: nat, sign: bool)
    requires word < 0x800000
    ensures var c := size * 0x1000000 + (if sign then 0x800000 else 0) + word;
      Exponent(c) == size && Mantissa(c) == word && (SignBit(c) <==> sign)
  {
  }

  lemma EncodesUnique(x: nat, negative: bool, c: nat, c': nat)
    requires Encodes(x, negative, c) && Encodes(x, negative, c')
    ensures c == c'
  {
    SizeUnique(x, Exponent(c), Exponent(c'));
    PartsUnique(c, c');
  }

  lemma SizeUnique(x: nat, s: nat, s': nat)
    requires IsSize(x, s) && IsSize(x, s')
    ensures s == s'
  {
    if s < s' {
      FitsMore(x, s, s' - 1);
    } else if s' < s {
      FitsMore(x, s', s - 1);
    }
  }

  lemma FitsMore(x: nat, s: nat, s': nat)
    requires Fits(x, s) && s <= s'
    ensures Fits(x, s')
  {
    if 0 < s {
      Pow2Mono(8 * s - 1, 8 * s' - 1);
    }
  }

  // ---------------------------------------------------------------- scaling

  lemma Powers24()
    ensures Pow2(15) == 0x8000 && Pow2(16) == 0x1_0000 && Pow2(23) == 0x80_0000 && Pow2(24) == 0x100_0000
  {
    Powers();
    Pow2Add(8, 7);
    Pow2Add(8, 16);
    assert Pow2(7) == 128;
  }

  lemma ScaleAtLeast(x: nat, s: nat, j: nat)
    requires 8 * s + j >= 24
    ensures Scale(x, s) >= Pow2(j) <==> x >= Pow2(8 * s + j - 24)
  {
    if s <= 3 {
      Pow2Add(8 * s + j - 24, 8 * (3 - s));
      Threshold(x, Pow2(8 * (3 - s)), Pow2(8 * s + j - 24));
    } else {
      Pow2Add(j, 8 * (s - 3));
      QuotientAtLeast(x, Pow2(8 * (s - 3)), Pow2(j));
    }
  }

  lemma QuotientAtLeast(x: nat, d: nat, t: nat)
    requires d > 0
    ensures x / d >= t <==> x >= t * d
  {
    DivMod(x, d);
    var q := x / d;
    if q >= t {
      MulMono(t, q, d);
    } else {
      MulMono(q + 1, t, d);
      Distribute(q, 1, d);
    }
  }

  /** A whole byte more, and the mantissa drops its lowest byte. */
  lemma ScaleMore(x: nat, s: nat)
    ensures Scale(x, s + 1) == Scale(x, s) / 0x100
  {
    Powers();
    if s < 3 {
      Pow2Add(8 * (2 - s), 8);
      Associate(x, Pow2(8 * (2 - s)), 0x100);
      WholeQuotient(x * Pow2(8 * (2 - s)), 0x100);
    } else {
      Pow2Add(8 * (s - 3), 8);
      QuotientTwice(x, Pow2(8 * (s - 3)), 0x100);
      assert s == 3 ==> Pow2(0) == 1;
    }
  }

  lemma WholeQuotient(q: nat, d: nat)
    requires d > 0
    ensures q * d / d == q && q * d % d == 0
  {
    DivisionUnique(q * d, d, q, 0);
  }

  lemma QuotientTwice(x: nat, a: nat, b: nat)
    requires a > 0 && b > 0
    ensures a * b > 0 && x / (a * b) == x / a / b
  {
    DivMod(x, a);
    var y := x / a;
    DivMod(y, b);
    var q, r, r' := y / b, y % b, x % a;
    Distribute(q * b, r, a);
    Associate(q, b, a);
    Commute(a, b);
    MulMono(r + 1, b, a);
    Distribute(r, 1, a);
    MulMono(1, b, a);
    DivisionUnique(x, a * b, q, r * a + r');
  }

  /** The mantissa has two or three significant bytes and a clear top bit. */
  lemma MantissaRange(x: nat, s: nat)
    requires IsSize(x, s)
    ensures Scale(x, s) < 0x800000 && (x != 0 ==> s > 0 && Scale(x, s) >= 0x8000)
  {
    Powers24();
    if s > 0 {
      ScaleAtLeast(x, s, 23);
      if s == 1 {
        ScaleAtLeast(x, s, 16);
        assert Pow2(0) == 1;
      } else {
        ScaleAtLeast(x, s, 15);
      }
    }
  }

  // ---------------------------------------------------------------- compressing

  /** GetLow64. */
  function Low64(pn: seq<nat>): nat
    requires |pn| >= 2
  {
    pn[0] + pn[1] * BASE
  }

  lemma Low64IsValue(pn: seq<nat>)
    requires IsLimbs(pn) && |pn| >= 2 && Val(pn) < Place(2)
    ensures Low64(pn) == Val(pn)
  {
    ValSplit(pn, 2);
    if High(pn, 2) > 0 {
      MulMono(1, High(pn, 2), Place(2));
    }
    Pow2Base();
    assert ValTo(pn, 2) == ValTo(pn, 1) + pn[1] * Place(1);
    assert ValTo(pn, 1) == ValTo(pn, 0) + pn[0] * Place(0);
    LowestPlace(pn[0]);
  }

  /** The bytes of x, and what they leave for the mantissa. */
  lemma BytesOf(x: nat, bits: nat)
    requires BitLength(x, bits)
    ensures var k := (bits + 7) / 8;
      && Scale(x, k) < 0x1000000 && (k <= 3 ==> x < 0x1000000)
      && IsSize(x, if Scale(x, k) >= 0x800000 then k + 1 else k)
  {
    var k := (bits + 7) / 8;
    Powers24();
    if x != 0 {
      Pow2Mono(bits, 8 * k);
      Pow2Mono(8 * (k - 1), bits - 1);
      ScaleAtLeast(x, k, 24);
      ScaleAtLeast(x, k, 23);
      if k <= 3 {
        Pow2Mono(8 * k, 24);
      }
      if x >= Pow2(8 * k - 1) {
        SizeWithSign(x, k);
      } else {
        SizeWithoutSign(x, k);
      }
    }
  }

  /** x takes k bytes and has the top bit set. */
  lemma SizeWithSign(x: nat, k: nat)
    requires k > 0 && Pow2(8 * k - 1) <= x < Pow2(8 * k)
    ensures IsSize(x, k + 1)
  {
    FitsBelow(x, 8 * k, k + 1);
    ExceedsAbove(x, 8 * k - 1, k);
  }

  /** x takes k bytes and has the top bit clear. */
  lemma SizeWithoutSign(x: nat, k: nat)
    requires k > 0 && Pow2(8 * (k - 1)) <= x < Pow2(8 * k - 1)
    ensures IsSize(x, k)
  {
    FitsBelow(x, 8 * k - 1, k);
    if k > 1 {
      ExceedsAbove(x, 8 * (k - 1), k - 1);
    }
  }

  lemma FitsBelow(x: nat, bits: nat, s: nat)
    requires x < Pow2(bits) && bits < 8 * s
    ensures Fits(x, s)
  {
    Pow2Mono(bits, 8 * s - 1);
  }

  lemma ExceedsAbove(x: nat, bits: nat, s: nat)
    requires Pow2(bits) <= x && 0 < 8 * s <= bits + 1
    ensures !Fits(x, s)
  {
    Pow2Mono(8 * s - 1, bits);
  }

  /** The three leading bytes of the number, padded if it has fewer. */
  method LeadingBytes(pn: seq<nat>, size: nat) returns (word: nat)
    requires IsLimbs(pn) && |pn| == WIDTH && Scale(Val(pn), size) < 0x1000000 && (size <= 3 ==> Val(pn) < 0x1000000)
    ensures word == Scale(Val(pn), size)
  {
    if size <= 3 {
      ScaledLow(pn, Val(pn), Pow2(8 * (3 - size)));
      word := Low(Low64(pn) * Pow2(8 * (3 - size)));
    } else {
      var bn := Copy(pn);
      ShiftRight(bn, 8 * (size - 3));
      ScaledLow(bn[..], Scale(Val(pn), size), 1);
      word := Low(Low64(bn[..]));
    }
  }

  /** Nothing is cut off when a small number is scaled in 32 bits. */
  lemma ScaledLow(pn: seq<nat>, x: nat, p: nat)
    requires IsLimbs(pn) && |pn| >= 2 && x == Val(pn) < 0x1000000 && x * p < 0x1000000
    ensures Low(Low64(pn) * p) == x * p
  {
    Pow2Base();
    Pow2Mono(32, 64);
    Low64IsValue(pn);
    BelowBase(x * p);
  }

  lemma BelowBase(v: nat)
    requires v < BASE
    ensures Low(v) == v
  {
  }

  /** Bit 23 of a number of 24 bits. */
  lemma TopOfThree(word: nat)
    requires word < 0x1000000
    ensures SignBit(word) <==> word >= 0x800000
  {
  }

  /** Size and mantissa; if the sign bit would be set, a byte more and the mantissa divided by 256. */
  method SizeAndWord(pn: seq<nat>) returns (size: nat, word: nat)
    requires IsLimbs(pn) && |pn| == WIDTH
    ensures IsSize(Val(pn), size) && word == Scale(Val(pn), size) && size <= 33
  {
    var bits := Bits(pn);
    BytesOf(Val(pn), bits);
    size := (bits + 7) / 8;
    word := LeadingBytes(pn, size);
    TopOfThree(word);
    if SignBit(word) {
      ScaleMore(Val(pn), size);
      word := word / 0x100;
      size := size + 1;
    }
  }

  /** GetCompact. The parts of the result do not overlap, so joining them is adding them. */
  method GetCompact(pn: seq<nat>, negative: bool) returns (c: nat)
    requires IsLimbs(pn) && |pn| == WIDTH
    ensures c < BASE && Encodes(Val(pn), negative, c)
  {
    var size, word := SizeAndWord(pn);
    MantissaRange(Val(pn), size);
    assert word < 0x800000 && size < 256;
    var sign := negative && word != 0;
    PartsOfSum(size, word, sign);
    SignOfZero(Val(pn), size);
    c := size * 0x1000000 + (if sign then 0x800000 else 0) + word;
  }

  lemma SignOfZero(x: nat, s: nat)
    requires IsSize(x, s)
    ensures Scale(x, s) == 0 <==> x == 0
  {
    MantissaRange(x, s);
    if x == 0 {
      SizeUnique(0, s, 0);
    }
  }

  // ---------------------------------------------------------------- there and back

  /** Rounded down to a whole number of units. */
  lemma TargetOfScale(x: nat, c: nat)
    requires Mantissa(c) == Scale(x, Exponent(c))
    ensures Target(c) == x - x % Unit(Exponent(c))
  {
    var e := Exponent(c);
    if e <= 3 {
      WholeQuotient(x, Pow2(8 * (3 - e)));
    } else {
      DivMod(x, Pow2(8 * (e - 3)));
    }
  }

  /**
   Reading a compact form back yields x with all but its leading bytes cleared, in range, with the
   sign it was given. At least 16 bits of x are significant in it.
   */
  lemma CompactRounds(x: nat, negative: bool, c: nat)
    requires x < Pow2(BITS) && Encodes(x, negative, c)
    ensures Target(c) == x - x % Unit(Exponent(c)) <= x < Pow2(BITS)
    ensures x != 0 ==> 0x8000 <= Mantissa(c) && (Exponent(c) > 3 ==> x / Unit(Exponent(c)) >= 0x8000)
    ensures IsNegative(c) <==> negative && x != 0
    ensures Canonical(c)
  {
    var e := Exponent(c);
    TargetOfScale(x, c);
    MantissaRange(x, e);
    if x == 0 {
      ZeroForm(c);
    } else if e <= 3 {
      WholeQuotient(x, Pow2(8 * (3 - e)));
    }
  }

  lemma ZeroForm(c: nat)
    requires Encodes(0, false, c)
    ensures c == 0
  {
    assert Exponent(c) == 0 by { assert Fits(0, 0); SizeUnique(0, Exponent(c), 0); }
    assert Mantissa(c) == 0;
    PartsUnique(c, 0);
  }

  /** A canonical form is the compact form of its own target. */
  lemma CanonicalEncodes(c: nat)
    requires Canonical(c)
    ensures Encodes(Target(c), IsNegative(c), c)
  {
    var m, e, x := Mantissa(c), Exponent(c), Target(c);
    if c == 0 {
      assert Pow2(24) > 0;
    } else {
      ScaleOfTarget(c);
      CanonicalSize(x, m, e);
    }
  }

  lemma ScaleOfTarget(c: nat)
    requires Canonical(c)
    ensures Scale(Target(c), Exponent(c)) == Mantissa(c)
  {
    var m, e := Mantissa(c), Exponent(c);
    if e <= 3 {
      DivMod(m, Pow2(8 * (3 - e)));
      assert e == 3 ==> Pow2(0) == 1;
    } else {
      WholeQuotient(m, Pow2(8 * (e - 3)));
    }
  }

  lemma CanonicalSize(x: nat, m: nat, e: nat)
    requires Scale(x, e) == m && 0x8000 <= m < 0x800000
    ensures IsSize(x, e) && x != 0
  {
    Powers24();
    PositiveSize(x, e);
    ScaleAtLeast(x, e, 23);
    if e > 1 {
      ScaleAtLeast(x, e, 15);
    }
  }

  lemma PositiveSize(x: nat, e: nat)
    requires 0x8000 <= Scale(x, e) < 0x800000
    ensures e > 0 && x > 0
  {
    Powers24();
    ScaleAtLeast(x, e, 24);
  }

  /**
   SetCompact followed by GetCompact returns what it was given exactly for the canonical forms.
   SetCompact yields v, which is the target cut off at 256 bits.
   */
  lemma CompactRoundTrip(c: nat, v: nat, c': nat)
    requires v == Target(c) % Pow2(BITS) && Encodes(v, IsNegative(c), c')
    ensures c' == c <==> Canonical(c)
  {
    BelowModulus(Target(c), Pow2(BITS));
    CompactRounds(v, IsNegative(c), c');
    if Canonical(c) {
      CanonicalEncodes(c);
      assert Target(c) < Pow2(BITS) by { ZeroTarget(); }
      EncodesUnique(v, IsNegative(c), c, c');
    }
  }

  lemma ZeroTarget()
    ensures Target(0) == 0 < Pow2(BITS)
  {
    QuotientZero(Pow2(24));
  }

  lemma QuotientZero(d: nat)
    requires d > 0
    ensures 0 / d == 0
  {
  }
}
