/**
 Numbers as sequences of 32-bit limbs, least significant first (base_uint, src/arith_uint256.h).
 */
module Limbs {
  import opened Numbers

  const BASE: nat := 0x1_0000_0000

  /** n & 0xffffffff. */
  function Low(n: nat): (r: nat)
    ensures r < BASE
  {
    n % 0x1_0000_0000
  }

  /** n >> 32. */
  function Carry(n: nat): (c: nat)
    ensures n == BASE * c + Low(n)
  {
    n / 0x1_0000_0000
  }

  lemma Pow2Base()
    ensures Pow2(32) == BASE
  {
    assert Pow2(8) == 256;
    Pow2Add(8, 8);
    Pow2Add(16, 16);
  }

  /** Place value of limb k. */
  function Place(k: nat): (p: nat)
    ensures p > 0
  {
    Pow2(32 * k)
  }

  lemma PlaceStep(k: nat)
    ensures Place(k + 1) == BASE * Place(k)
  {
    Pow2Base();
    Pow2Add(32, 32 * k);
  }

  lemma PlaceAdd(a: nat, b: nat)
    ensures Place(a + b) == Place(a) * Place(b)
  {
    Pow2Add(32 * a, 32 * b);
  }

  ghost predicate IsLimbs(s: seq<nat>) {
    forall i :: 0 <= i < |s| ==> s[i] < BASE
  }

  /** Value of the first n limbs. */
  function ValTo(s: seq<nat>, n: nat): nat
    requires n <= |s|
  {
    if n == 0 then 0 else ValTo(s, n - 1) + s[n - 1] * Place(n - 1)
  }

  function Val(s: seq<nat>): nat {
    ValTo(s, |s|)
  }

  // ---------------------------------------------------------------- values

  lemma {:induction false} ValBound(s: seq<nat>, n: nat)
    requires n <= |s| && IsLimbs(s)
    ensures ValTo(s, n) < Place(n)
  {
    if n > 0 {
      ValBound(s, n - 1);
      PlaceStep(n - 1);
      MulMono(s[n - 1] + 1, BASE, Place(n - 1));
      Distribute(s[n - 1], 1, Place(n - 1));
    }
  }

  lemma {:induction false} ValSame(a: seq<nat>, b: seq<nat>, n: nat)
    requires n <= |a| && n <= |b| && forall i :: 0 <= i < n ==> a[i] == b[i]
    ensures ValTo(a, n) == ValTo(b, n)
  {
    if n > 0 {
      ValSame(a, b, n - 1);
    }
  }

  /** Changing limb k by d changes the value by d times its place. */
  lemma {:induction false} ValUpdate(s: seq<nat>, k: nat, x: nat, n: nat)
    requires k < |s| && n <= |s|
    ensures ValTo(s[k := x], n) == ValTo(s, n) + if k < n then (x - s[k]) * Place(k) else 0
  {
    if n > 0 {
      ValUpdate(s, k, x, n - 1);
      if k == n - 1 {
        Distribute(x, s[k], Place(k));
      }
    }
  }

  lemma {:induction false} ValZero(s: seq<nat>, n: nat)
    requires n <= |s| && forall i :: 0 <= i < n ==> s[i] == 0
    ensures ValTo(s, n) == 0
  {
    if n > 0 {
      ValZero(s, n - 1);
    }
  }

  /** Value of the limbs from n on, in units of Place(n). */
  function High(s: seq<nat>, n: nat): nat
    requires n <= |s|
    decreases |s| - n
  {
    if n == |s| then 0 else s[n] + BASE * High(s, n + 1)
  }

  lemma {:induction false} ValSplit(s: seq<nat>, n: nat)
    requires n <= |s|
    ensures Val(s) == ValTo(s, n) + High(s, n) * Place(n)
    decreases |s| - n
  {
    if n < |s| {
      ValSplit(s, n + 1);
      PlaceStep(n);
      var x, h, p := s[n], High(s, n + 1), Place(n);
      Distribute(x, BASE * h, p);
      Associate(BASE, h, p);
      Associate(h, BASE, p);
    }
  }

  // ---------------------------------------------------------------- bits

  /** Bitwise or. */
  function Or(a: nat, b: nat): nat
    decreases a
  {
    if a == 0 then b else 2 * Or(a / 2, b / 2) + (if a % 2 == 1 || b % 2 == 1 then 1 else 0)
  }

  lemma {:induction false} OrZero(a: nat)
    ensures Or(a, 0) == a && Or(0, a) == a
  {
    if a > 0 {
      OrZero(a / 2);
    }
  }

  /** Where one operand has only bits below s and the other only bits from s on, or is addition. */
  lemma {:induction false} OrDisjoint(a: nat, m: nat, s: nat)
    requires a < Pow2(s)
    ensures Or(a, m * Pow2(s)) == a + m * Pow2(s)
    decreases s
  {
    if a > 0 {
      var h := m * Pow2(s - 1);
      assert m * Pow2(s) == 2 * h by { Associate(m, 2, Pow2(s - 1)); }
      assert (2 * h) / 2 == h && (2 * h) % 2 == 0;
      OrDisjoint(a / 2, m, s - 1);
    }
  }
}
