/**
 Big-integer arithmetic on an array of 32-bit limbs, at every width (src/arith_uint256.h,
 src/arith_uint256.cpp). Each operator rewrites the limbs in place.
 */
module ArithUint {
  import opened Numbers
  import opened Limbs

  /** 2^BITS for this width. */
  function Modulus(pn: array<nat>): nat {
    Place(pn.Length)
  }

  ghost predicate Valid(pn: array<nat>)
    reads pn
  {
    IsLimbs(pn[..])
  }

  // ---------------------------------------------------------------- carries

  /** Storing the low 32 bits of n in limb k and carrying the rest. */
  lemma CarryStep(s: seq<nat>, k: nat, n: nat)
    requires k < |s|
    ensures Val(s[k := Low(n)]) + (Carry(n)) * Place(k + 1) == Val(s) + (n - s[k]) * Place(k)
  {
    ValUpdate(s, k, Low(n), |s|);
    PlaceStep(k);
    var q, r, p := Carry(n), Low(n), Place(k);
    Associate(q, BASE, p);
    Associate(BASE, q, p);
    Distribute(r, s[k], p);
    Distribute(n, s[k], p);
    Distribute(BASE * q, r, p);
  }

  /** An in-range value that differs by a multiple of the modulus is the remainder. */
  lemma Truncated(s: seq<nat>, d: nat, total: nat)
    requires IsLimbs(s) && Val(s) + d * Place(|s|) == total
    ensures Val(s) == total % Place(|s|)
  {
    ValBound(s, |s|);
    DivisionUnique(total, Place(|s|), d, Val(s));
  }

  lemma AddStep(s: seq<nat>, b: seq<nat>, i: nat, carry: nat)
    requires i < |s| && i < |b|
    ensures var n := carry + s[i] + b[i];
      Val(s[i := Low(n)]) + (Carry(n)) * Place(i + 1) - ValTo(b, i + 1) == Val(s) + carry * Place(i) - ValTo(b, i)
  {
    var n := carry + s[i] + b[i];
    CarryStep(s, i, n);
    assert n - s[i] == carry + b[i];
    Distribute(carry, b[i], Place(i));
  }

  /** A number below twice the modulus, reduced. */
  function Wrapped(x: nat, m: nat): int {
    if x < m then x else x - m
  }

  lemma WrappedIsRemainder(x: nat, m: nat)
    requires m > 0 && x < 2 * m
    ensures Wrapped(x, m) == x % m
  {
    DivisionUnique(x, m, if x < m then 0 else 1, Wrapped(x, m));
  }

  /** operator+=. */
  method Add(pn: array<nat>, b: seq<nat>)
    requires Valid(pn) && IsLimbs(b) && |b| == pn.Length
    modifies pn
    ensures Valid(pn) && Val(pn[..]) == Wrapped(old(Val(pn[..])) + Val(b), Modulus(pn)) == (old(Val(pn[..])) + Val(b)) % Modulus(pn)
  {
    ValBound(pn[..], pn.Length);
    ValBound(b, |b|);
    WrappedIsRemainder(Val(pn[..]) + Val(b), Modulus(pn));
    var carry: nat := 0;
    for i := 0 to pn.Length
      invariant Valid(pn) && carry <= 1
      invariant Val(pn[..]) + carry * Place(i) == old(Val(pn[..])) + ValTo(b, i)
    {
      ghost var s := pn[..];
      var n: nat := carry + pn[i] + b[i];
      AddStep(s, b, i, carry);
      pn[i] := Low(n);
      assert pn[..] == s[i := Low(n)];
      carry := Carry(n);
    }
    ValBound(pn[..], pn.Length);
  }

  /** Adding one to limb i either stops there or carries one on. */
  lemma IncrementStep(s: seq<nat>, i: nat)
    requires IsLimbs(s) && i < |s|
    ensures var s' := s[i := Low(s[i] + 1)];
      IsLimbs(s') && if s'[i] != 0 then Val(s') == Val(s) + Place(i) else Val(s') + Place(i + 1) == Val(s) + Place(i)
  {
    CarryStep(s, i, s[i] + 1);
  }

  /** operator++. */
  method Increment(pn: array<nat>)
    requires Valid(pn)
    modifies pn
    ensures Valid(pn) && Val(pn[..]) == Wrapped(old(Val(pn[..])) + 1, Modulus(pn)) == (old(Val(pn[..])) + 1) % Modulus(pn)
  {
    ValBound(pn[..], pn.Length);
    WrappedIsRemainder(Val(pn[..]) + 1, Modulus(pn));
    var i := 0;
    while i < pn.Length
      invariant i <= pn.Length && Valid(pn)
      invariant Val(pn[..]) + Place(i) == old(Val(pn[..])) + 1
    {
      ghost var s := pn[..];
      IncrementStep(s, i);
      pn[i] := Low(pn[i] + 1);
      assert pn[..] == s[i := Low(s[i] + 1)];
      if pn[i] != 0 {
        ValBound(pn[..], pn.Length);
        return;
      }
      i := i + 1;
    }
    ValBound(pn[..], pn.Length);
  }

  function Complement(s: seq<nat>): (r: seq<nat>)
    requires IsLimbs(s)
    ensures |r| == |s| && IsLimbs(r)
  {
    seq(|s|, i requires 0 <= i < |s| => BASE - 1 - s[i])
  }

  lemma {:induction false} ComplementValue(s: seq<nat>, n: nat)
    requires IsLimbs(s) && n <= |s|
    ensures ValTo(Complement(s), n) == Place(n) - 1 - ValTo(s, n)
  {
    if n > 0 {
      ComplementValue(s, n - 1);
      PlaceStep(n - 1);
      Distribute(BASE - 1, s[n - 1], Place(n - 1));
      Distribute(BASE, 1, Place(n - 1));
    }
  }

  /** operator-: the two's complement. */
  method Negate(b: seq<nat>) returns (ret: array<nat>)
    requires IsLimbs(b)
    ensures fresh(ret) && ret.Length == |b| && Valid(ret)
    ensures Val(ret[..]) == if Val(b) == 0 then 0 else Place(|b|) - Val(b)
  {
    ret := new nat[|b|];
    ghost var c := Complement(b);
    for i := 0 to |b|
      invariant ret[..i] == c[..i]
    {
      ret[i] := BASE - 1 - b[i];
    }
    assert ret[..] == c;
    ComplementValue(b, |b|);
    Increment(ret);
  }

  /** operator-=, through negation. */
  method Sub(pn: array<nat>, b: seq<nat>)
    requires Valid(pn) && IsLimbs(b) && |b| == pn.Length
    modifies pn
    ensures Valid(pn) && Val(pn[..]) == Difference(old(Val(pn[..])), Val(b), Modulus(pn))
  {
    ValBound(b, |b|);
    ValBound(pn[..], pn.Length);
    var neg := Negate(b);
    Add(pn, neg[..]);
  }

  /** a - b, wrapping around below zero. */
  function Difference(a: nat, b: nat, m: nat): int {
    if b <= a then a - b else a + m - b
  }

  // ---------------------------------------------------------------- comparison and bit length

  /** The highest limb that differs decides. */
  lemma HigherLimb(a: seq<nat>, b: seq<nat>, i: nat)
    requires IsLimbs(a) && IsLimbs(b) && |a| == |b| && i < |a| && a[i] < b[i]
    requires forall k :: i < k < |a| ==> a[k] == b[k]
    ensures Val(a) < Val(b)
  {
    ValBound(a, i);
    MulMono(a[i] + 1, b[i], Place(i));
    Distribute(a[i], 1, Place(i));
    HigherSame(a, b, i + 1);
    ValSplit(a, i + 1);
    ValSplit(b, i + 1);
  }

  lemma {:induction false} HigherSame(a: seq<nat>, b: seq<nat>, n: nat)
    requires |a| == |b| && n <= |a| && forall k :: n <= k < |a| ==> a[k] == b[k]
    ensures High(a, n) == High(b, n)
    decreases |a| - n
  {
    if n < |a| {
      HigherSame(a, b, n + 1);
    }
  }

  /** CompareTo. */
  method CompareTo(a: seq<nat>, b: seq<nat>) returns (c: int)
    requires IsLimbs(a) && IsLimbs(b) && |a| == |b|
    ensures c == if Val(a) < Val(b) then -1 else if Val(a) > Val(b) then 1 else 0
  {
    var i := |a|;
    while i > 0
      invariant 0 <= i <= |a| && forall k :: i <= k < |a| ==> a[k] == b[k]
    {
      i := i - 1;
      if a[i] < b[i] {
        HigherLimb(a, b, i);
        return -1;
      }
      if a[i] > b[i] {
        HigherLimb(b, a, i);
        return 1;
      }
    }
    assert a == b;
    return 0;
  }

  /** Bit number n of x. */
  predicate Bit(x: nat, n: nat) {
    x / Pow2(n) % 2 == 1
  }

  /** n bits are needed for x. */
  ghost predicate BitLength(x: nat, n: nat) {
    if x == 0 then n == 0 else n > 0 && Pow2(n - 1) <= x < Pow2(n)
  }

  lemma TopBit(x: nat, n: nat)
    requires x < Pow2(n + 1)
    ensures Bit(x, n) <==> x >= Pow2(n)
  {
    var p := Pow2(n);
    if x >= p {
      DivisionUnique(x, p, 1, x - p);
    } else {
      DivisionUnique(x, p, 0, x);
    }
  }

  /** bits. */
  method Bits(pn: seq<nat>) returns (r: nat)
    requires IsLimbs(pn)
    ensures BitLength(Val(pn), r) && r <= 32 * |pn|
  {
    var pos := |pn|;
    while pos > 0
      invariant 0 <= pos <= |pn| && forall k :: pos <= k < |pn| ==> pn[k] == 0
    {
      pos := pos - 1;
      if pn[pos] != 0 {
        r := LimbBits(pn[pos]);
        TopLimb(pn, pos, r);
        return 32 * pos + r;
      }
    }
    ValZero(pn, |pn|);
    return 0;
  }

  method LimbBits(x: nat) returns (r: nat)
    requires 0 < x < BASE
    ensures BitLength(x, r) && 1 <= r <= 32
  {
    Pow2Base();
    var nbits := 31;
    while nbits > 0
      invariant 0 <= nbits <= 31 && x < Pow2(nbits + 1)
    {
      TopBit(x, nbits);
      if Bit(x, nbits) {
        return nbits + 1;
      }
      nbits := nbits - 1;
    }
    assert Pow2(1) == 2 && Pow2(0) == 1;
    return 1;
  }

  lemma TopLimb(pn: seq<nat>, pos: nat, r: nat)
    requires IsLimbs(pn) && pos < |pn| && pn[pos] != 0 && BitLength(pn[pos], r) && forall k :: pos < k < |pn| ==> pn[k] == 0
    ensures BitLength(Val(pn), 32 * pos + r)
  {
    ValSplit(pn, pos + 1);
    HighZero(pn, pos + 1);
    ValBound(pn, pos);
    Pow2Add(r, 32 * pos);
    Pow2Add(r - 1, 32 * pos);
    TopNumbers(ValTo(pn, pos), pn[pos], Place(pos), Pow2(r - 1), Pow2(r));
  }

  lemma TopNumbers(low: nat, x: nat, p: nat, least: nat, limit: nat)
    requires low < p && least <= x < limit
    ensures least * p <= low + x * p < limit * p
  {
    MulMono(least, x, p);
    MulMono(x + 1, limit, p);
    Distribute(x, 1, p);
  }

  lemma {:induction false} HighZero(s: seq<nat>, n: nat)
    requires n <= |s| && forall k :: n <= k < |s| ==> s[k] == 0
    ensures High(s, n) == 0
    decreases |s| - n
  {
    if n < |s| {
      HighZero(s, n + 1);
    }
  }
}
