/**
 Compact targets and the work of a block (SetCompact, src/arith_uint256.cpp:173-193, and
 GetBlockProof, src/chain.cpp:131-144), on 256-bit numbers.
 */
module BlockWork {
  import opened Numbers
  import opened Limbs
  import opened ArithUint
  import opened ArithShift
  import opened ArithMulDiv

  const WIDTH: nat := 8
  const BITS: nat := 256

  /** nCompact & 0x007fffff. */
  function Mantissa(nCompact: nat): (m: nat)
    ensures m < 0x800000
  {
    nCompact % 0x800000
  }

  /** nCompact >> 24. */
  function Exponent(nCompact: nat): nat {
    nCompact / 0x1000000
  }

  predicate SignBit(nCompact: nat) {
    nCompact / 0x800000 % 2 == 1
  }

  /** mantissa * 256^(exponent - 3), rounded down. */
  function Target(nCompact: nat): nat {
    var m, e := Mantissa(nCompact), Exponent(nCompact);
    if e <= 3 then m / Pow2(8 * (3 - e)) else m * Pow2(8 * (e - 3))
  }

  predicate IsNegative(nCompact: nat) {
    var m, e := Mantissa(nCompact), Exponent(nCompact);
    (if e <= 3 then m / Pow2(8 * (3 - e)) else m) != 0 && SignBit(nCompact)
  }

  /** Limbs of a 32-bit number. */
  function SmallLimbs(x: nat): (s: seq<nat>)
    ensures |s| == WIDTH
  {
    [x, 0, 0, 0, 0, 0, 0, 0]
  }

  lemma SmallValue(x: nat)
    requires x < BASE
    ensures IsLimbs(SmallLimbs(x)) && Val(SmallLimbs(x)) == x
  {
    FirstLimbOnly(SmallLimbs(x));
  }

  lemma FirstLimbOnly(s: seq<nat>)
    requires |s| > 0 && forall i :: 0 < i < |s| ==> s[i] == 0
    ensures Val(s) == s[0]
  {
    ValSplit(s, 1);
    HighZero(s, 1);
    LowestPlace(s[0]);
    assert ValTo(s, 1) == ValTo(s, 0) + s[0] * Place(0);
  }

  lemma LowestPlace(x: nat)
    ensures x * Place(0) == x
  {
    assert Place(0) == 1;
  }

  lemma Powers()
    ensures Pow2(8) == 0x100 && Pow2(16) == 0x1_0000 && Pow2(23) == 0x80_0000
  {
    assert Pow2(8) == 256;
    Pow2Add(8, 8);
    Pow2Add(16, 7);
    assert Pow2(7) == 128;
  }

  /** The overflow test is exact: the target does not fit 256 bits. */
  lemma OverflowExact(m: nat, e: nat)
    requires m < 0x800000 && e > 3
    ensures (m != 0 && (e > 34 || (m > 0xff && e > 33) || (m > 0xffff && e > 32))) <==> m * Pow2(8 * (e - 3)) >= Pow2(BITS)
  {
    Powers();
    var p := Pow2(8 * (e - 3));
    if e > 34 {
      Pow2Mono(BITS, 8 * (e - 3));
      if m != 0 { MulMono(1, m, p); }
    } else if e == 34 {
      Pow2Add(8, 8 * (e - 3));
      Threshold(m, p, 0x100);
    } else if e == 33 {
      Pow2Add(16, 8 * (e - 3));
      Threshold(m, p, 0x1_0000);
    } else {
      NoOverflow(m, e);
    }
  }

  lemma NoOverflow(m: nat, e: nat)
    requires m < 0x800000 && 3 < e <= 32
    ensures m * Pow2(8 * (e - 3)) < Pow2(BITS)
  {
    Powers();
    Pow2Add(23, 8 * (e - 3));
    MulMono(m, 0x80_0000, Pow2(8 * (e - 3)));
    Pow2Mono(23 + 8 * (e - 3), BITS);
  }

  lemma Threshold(m: nat, p: nat, t: nat)
    requires p > 0
    ensures m * p >= t * p <==> m >= t
  {
    if m >= t { MulMono(t, m, p); } else { MulMono(m + 1, t, p); Distribute(m, 1, p); }
  }

  /** SetCompact: the target, and whether it is negative or does not fit. */
  method SetCompact(nCompact: nat) returns (pn: array<nat>, negative: bool, overflow: bool)
    requires nCompact < BASE
    ensures fresh(pn) && pn.Length == WIDTH && Valid(pn)
    ensures negative <==> IsNegative(nCompact)
    ensures overflow <==> Target(nCompact) >= Pow2(BITS)
    ensures Val(pn[..]) == Target(nCompact) % Pow2(BITS) && (!overflow ==> Val(pn[..]) == Target(nCompact))
  {
    BelowModulus(Target(nCompact), Pow2(BITS));
    var size := Exponent(nCompact);
    var word := Mantissa(nCompact);
    if size <= 3 {
      SmallTarget(nCompact);
      word := word / Pow2(8 * (3 - size));
      SmallValue(word);
      pn := Copy(SmallLimbs(word));
    } else {
      SmallValue(word);
      pn := Copy(SmallLimbs(word));
      OverflowExact(word, size);
      ShiftLeft(pn, 8 * (size - 3));
    }
    negative := word != 0 && SignBit(nCompact);
    overflow := word != 0 && (size > 34 || (word > 0xff && size > 33) || (word > 0xffff && size > 32));
  }

  lemma SmallTarget(nCompact: nat)
    requires Exponent(nCompact) <= 3
    ensures Target(nCompact) <= Mantissa(nCompact) < BASE <= Pow2(BITS)
  {
    SmallerWord(Mantissa(nCompact), Pow2(8 * (3 - Exponent(nCompact))));
    Pow2Mono(32, BITS);
    Pow2Base();
  }

  lemma SmallerWord(m: nat, p: nat)
    requires p > 0
    ensures 0 <= m / p <= m
  {
    DivMod(m, p);
    MulMono(1, p, m / p);
    Commute(p, m / p);
  }

  lemma BelowModulus(v: nat, m: nat)
    requires m > 0
    ensures v < m ==> v % m == v
  {
    if v < m {
      DivisionUnique(v, m, 0, v);
    }
  }

  /** A target that fits is never the largest number: its low byte is zero or it is small. */
  lemma TargetNotMax(nCompact: nat)
    requires Target(nCompact) < Pow2(BITS)
    ensures Target(nCompact) < Pow2(BITS) - 1
  {
    var m, e := Mantissa(nCompact), Exponent(nCompact);
    Powers();
    Pow2Mono(24, BITS);
    Pow2Add(8, 16);
    if e <= 3 {
      SmallerWord(m, Pow2(8 * (3 - e)));
    } else {
      Pow2Add(8 * (e - 4), 8);
      Associate(m, Pow2(8 * (e - 4)), Pow2(8));
      Pow2Add(BITS - 8, 8);
      NotAllOnes(m * Pow2(8 * (e - 4)), Pow2(BITS - 8));
    }
  }

  lemma NotAllOnes(a: nat, b: nat)
    ensures a * 0x100 != b * 0x100 - 1
  {
  }

  /** One more than the quotient of what is below the modulus. */
  lemma ProofQuotient(t: nat, m: nat)
    requires 0 < t < m - 1
    ensures (m - 1 - t) / (t + 1) + 1 == m / (t + 1) < m
  {
    var d := t + 1;
    var q, r := (m - 1 - t) / d, (m - 1 - t) % d;
    DivMod(m - 1 - t, d);
    Distribute(q, 1, d);
    DivisionUnique(m, d, q + 1, r);
    MulMono(2, d, q + 1);
    Commute(d, q + 1);
  }

  /** GetBlockProof: the expected number of hashes for a block of this target. */
  method GetBlockProof(nBits: nat) returns (proof: array<nat>)
    requires nBits < BASE
    ensures proof.Length == WIDTH && Valid(proof)
    ensures Val(proof[..]) ==
      if IsNegative(nBits) || Target(nBits) >= Pow2(BITS) || Target(nBits) == 0 then 0 else Pow2(BITS) / (Target(nBits) + 1)
  {
    var target, negative, overflow := SetCompact(nBits);
    SmallValue(0);
    var zero := CompareTo(target[..], SmallLimbs(0));
    if negative || overflow || zero == 0 {
      proof := Copy(SmallLimbs(0));
      return;
    }
    TargetNotMax(nBits);
    proof := WorkOf(target[..]);
  }

  /** ~target / (target + 1) + 1. */
  method WorkOf(target: seq<nat>) returns (proof: array<nat>)
    requires IsLimbs(target) && |target| == WIDTH && 0 < Val(target) < Pow2(BITS) - 1
    ensures fresh(proof) && proof.Length == WIDTH && Valid(proof) && Val(proof[..]) == Pow2(BITS) / (Val(target) + 1)
  {
    ProofQuotient(Val(target), Pow2(BITS));
    proof := ProofQuotientOf(target);
    AddOne(proof);
  }

  method AddOne(pn: array<nat>)
    requires Valid(pn) && pn.Length == WIDTH && Val(pn[..]) + 1 < Pow2(BITS)
    modifies pn
    ensures Valid(pn) && Val(pn[..]) == old(Val(pn[..])) + 1
  {
    SmallValue(1);
    Add(pn, SmallLimbs(1));
  }

  /** ~target / (target + 1): the divisor is not zero. */
  method ProofQuotientOf(target: seq<nat>) returns (proof: array<nat>)
    requires IsLimbs(target) && |target| == WIDTH && 0 < Val(target) < Pow2(BITS) - 1
    ensures fresh(proof) && proof.Length == WIDTH && Valid(proof)
    ensures Val(proof[..]) == (Pow2(BITS) - 1 - Val(target)) / (Val(target) + 1)
  {
    ComplementValue(target, WIDTH);
    var divisor := Copy(target);
    AddOne(divisor);
    proof := Copy(Complement(target));
    var ok := Div(proof, divisor[..]);
    assert ok;
  }
}
