/**
 Changing the base of a number digit by digit, as Base58 does in both directions
 (src/base58.cpp:57-70 and :92-107). Digit buffers are indexed from the least significant digit.
 */
module Radix {
  import opened Numbers
  import opened Reversal

  function Pow(b: nat, n: nat): nat {
    if n == 0 then 1 else b * Pow(b, n - 1)
  }

  /** Value of the first n digits, least significant first. */
  function ValTo(d: seq<nat>, b: nat, n: nat): nat
    requires n <= |d|
  {
    if n == 0 then 0 else ValTo(d, b, n - 1) + d[n - 1] * Pow(b, n - 1)
  }

  function Val(d: seq<nat>, b: nat): nat {
    ValTo(d, b, |d|)
  }

  /** Value of the first n digits, most significant first. */
  function HornerTo(x: seq<nat>, b: nat, n: nat): nat
    requires n <= |x|
  {
    if n == 0 then 0 else HornerTo(x, b, n - 1) * b + x[n - 1]
  }

  function Horner(x: seq<nat>, b: nat): nat {
    HornerTo(x, b, |x|)
  }

  ghost predicate Digits(d: seq<nat>, b: nat) {
    forall i :: 0 <= i < |d| ==> d[i] < b
  }

  /** Digits without a leading zero. */
  ghost predicate Canonical(d: seq<nat>, b: nat) {
    Digits(d, b) && (|d| > 0 ==> d[|d| - 1] != 0)
  }

  // ---------------------------------------------------------------- arithmetic

  lemma {:induction false} PowPositive(b: nat, n: nat)
    requires b > 0
    ensures Pow(b, n) > 0
  {
    if n > 0 {
      PowPositive(b, n - 1);
      MulMono(1, b, Pow(b, n - 1));
    }
  }

  lemma {:induction false} PowAdd(b: nat, m: nat, n: nat)
    ensures Pow(b, m + n) == Pow(b, m) * Pow(b, n)
  {
    if m > 0 {
      PowAdd(b, m - 1, n);
      Associate(b, Pow(b, m - 1), Pow(b, n));
    }
  }

  lemma {:induction false} PowMul(b: nat, m: nat, n: nat)
    ensures Pow(b, m * n) == Pow(Pow(b, m), n)
  {
    if n > 0 {
      PowMul(b, m, n - 1);
      assert m * n == m + m * (n - 1);
      PowAdd(b, m, m * (n - 1));
    }
  }

  lemma {:induction false} PowMono(a: nat, b: nat, n: nat)
    requires a <= b
    ensures Pow(a, n) <= Pow(b, n)
  {
    if n > 0 {
      PowMono(a, b, n - 1);
      MulMono(a, b, Pow(a, n - 1));
      MulMono(Pow(a, n - 1), Pow(b, n - 1), b);
    }
  }

  lemma {:induction false} PowGrows(b: nat, m: nat, n: nat)
    requires b >= 2 && m < n
    ensures Pow(b, m) < Pow(b, n)
    decreases n
  {
    PowPositive(b, n - 1);
    MulMono(2, b, Pow(b, n - 1));
    if m < n - 1 {
      PowGrows(b, m, n - 1);
    }
  }

  /**
   If a^p <= b^q, then b^s exceeds a^n as soon as p * s > q * n: comparing p-th powers.
   */
  lemma EnoughDigits(a: nat, b: nat, p: nat, q: nat, n: nat, s: nat)
    requires a >= 1 && b >= 2 && p > 0 && Pow(a, p) <= Pow(b, q) && q * n < p * s
    ensures Pow(a, n) < Pow(b, s)
  {
    PthPowers(a, b, p, q, n, s);
    if Pow(b, s) <= Pow(a, n) {
      PowMono(Pow(b, s), Pow(a, n), p);
    }
  }

  lemma PthPowers(a: nat, b: nat, p: nat, q: nat, n: nat, s: nat)
    requires a >= 1 && b >= 2 && p > 0 && Pow(a, p) <= Pow(b, q) && q * n < p * s
    ensures Pow(Pow(a, n), p) < Pow(Pow(b, s), p)
  {
    UpperSide(a, b, p, q, n);
    PowGrows(b, q * n, p * s);
    LowerSide(b, p, s);
  }

  lemma UpperSide(a: nat, b: nat, p: nat, q: nat, n: nat)
    requires Pow(a, p) <= Pow(b, q)
    ensures Pow(Pow(a, n), p) <= Pow(b, q * n)
  {
    PowSwap(a, n, p);
    PowMono(Pow(a, p), Pow(b, q), n);
    PowMul(b, q, n);
  }

  lemma LowerSide(b: nat, p: nat, s: nat)
    ensures Pow(Pow(b, s), p) == Pow(b, p * s)
  {
    PowMul(b, p, s);
    PowSwap(b, s, p);
  }

  lemma PowSwap(b: nat, m: nat, n: nat)
    ensures Pow(Pow(b, m), n) == Pow(Pow(b, n), m)
  {
    PowMul(b, m, n);
    PowMul(b, n, m);
    Commute(m, n);
  }

  // ---------------------------------------------------------------- values

  lemma {:induction false} ValBound(d: seq<nat>, b: nat, n: nat)
    requires n <= |d| && Digits(d, b) && b > 0
    ensures ValTo(d, b, n) < Pow(b, n)
  {
    if n > 0 {
      ValBound(d, b, n - 1);
      MulMono(d[n - 1] + 1, b, Pow(b, n - 1));
      Distribute(d[n - 1], 1, Pow(b, n - 1));
    }
  }

  lemma {:induction false} HornerBound(x: seq<nat>, b: nat, n: nat)
    requires n <= |x| && Digits(x, b) && b > 0
    ensures HornerTo(x, b, n) < Pow(b, n)
  {
    if n > 0 {
      HornerBound(x, b, n - 1);
      MulMono(HornerTo(x, b, n - 1) + 1, Pow(b, n - 1), b);
      Distribute(HornerTo(x, b, n - 1), 1, b);
      Commute(Pow(b, n - 1), b);
    }
  }

  lemma {:induction false} ValSame(a: seq<nat>, c: seq<nat>, b: nat, n: nat)
    requires n <= |a| && n <= |c| && forall i :: 0 <= i < n ==> a[i] == c[i]
    ensures ValTo(a, b, n) == ValTo(c, b, n)
  {
    if n > 0 {
      ValSame(a, c, b, n - 1);
    }
  }

  lemma {:induction false} ValZeroAbove(d: seq<nat>, b: nat, m: nat, n: nat)
    requires m <= n <= |d| && forall i :: m <= i < n ==> d[i] == 0
    ensures ValTo(d, b, n) == ValTo(d, b, m)
  {
    if m < n {
      ValZeroAbove(d, b, m, n - 1);
    }
  }

  /** Two digit strings without leading zeros and of equal value are equal. */
  lemma {:induction false} CanonicalUnique(a: seq<nat>, c: seq<nat>, b: nat)
    requires b >= 2 && Canonical(a, b) && Canonical(c, b) && Val(a, b) == Val(c, b)
    ensures a == c
  {
    SameLength(a, c, b);
    SameLength(c, a, b);
    SameDigits(a, c, b, |a|);
  }

  /** More digits without a leading zero make a larger number. */
  lemma Longer(a: seq<nat>, c: seq<nat>, b: nat)
    requires b >= 2 && Canonical(a, b) && Digits(c, b) && |c| < |a|
    ensures Val(c, b) < Val(a, b)
  {
    var n := |a| - 1;
    ValBound(c, b, |c|);
    MulMono(1, a[n], Pow(b, n));
    if |c| < n { PowGrows(b, |c|, n); }
  }

  lemma SameLength(a: seq<nat>, c: seq<nat>, b: nat)
    requires b >= 2 && Canonical(a, b) && Canonical(c, b) && Val(a, b) == Val(c, b)
    ensures |a| <= |c|
  {
    if |a| > |c| {
      Longer(a, c, b);
    }
  }

  lemma {:induction false} SameDigits(a: seq<nat>, c: seq<nat>, b: nat, n: nat)
    requires b >= 2 && Digits(a, b) && Digits(c, b) && n <= |a| && n <= |c| && ValTo(a, b, n) == ValTo(c, b, n)
    ensures a[..n] == c[..n]
  {
    if n > 0 {
      ValBound(a, b, n - 1);
      ValBound(c, b, n - 1);
      var p, x, y := Pow(b, n - 1), a[n - 1], c[n - 1];
      if x < y {
        MulMono(x + 1, y, p);
        Distribute(x, 1, p);
      } else if y < x {
        MulMono(y + 1, x, p);
        Distribute(y, 1, p);
      }
      SameDigits(a, c, b, n - 1);
      assert a[..n] == a[..n - 1] + [x] && c[..n] == c[..n - 1] + [y];
    }
  }

  lemma {:induction false} ReversedSnoc(x: seq<nat>)
    requires x != []
    ensures Reversed(x) == [x[|x| - 1]] + Reversed(x[..|x| - 1])
  {
    if |x| > 1 {
      ReversedSnoc(x[1..]);
      assert x[1..][..|x| - 2] == x[..|x| - 1][1..];
    }
  }

  lemma ReversedDigits(x: seq<nat>, b: nat)
    requires Digits(x, b)
    ensures Digits(Reversed(x), b) && (x != [] ==> Reversed(x)[0] == x[|x| - 1] && Reversed(x)[|x| - 1] == x[0])
  {
    if x != [] {
      ReversedAt(x, 0);
      ReversedAt(x, |x| - 1);
    }
    forall k: nat | k < |x|
      ensures Reversed(x)[k] < b
    {
      ReversedAt(x, k);
    }
  }

  /** Both ways of reading a number agree. */
  lemma {:induction false} HornerIsVal(x: seq<nat>, b: nat)
    ensures Horner(x, b) == Val(Reversed(x), b)
  {
    if |x| > 0 {
      var n := |x| - 1;
      HornerIsVal(x[..n], b);
      HornerSame(x[..n], x, b, n);
      ShiftUp(Reversed(x[..n]), x[n], b, n);
      ReversedSnoc(x);
    }
  }

  lemma {:induction false} HornerSame(a: seq<nat>, c: seq<nat>, b: nat, n: nat)
    requires n <= |a| && n <= |c| && forall i :: 0 <= i < n ==> a[i] == c[i]
    ensures HornerTo(a, b, n) == HornerTo(c, b, n)
  {
    if n > 0 {
      HornerSame(a, c, b, n - 1);
    }
  }

  lemma {:induction false} ShiftUp(d: seq<nat>, x: nat, b: nat, n: nat)
    requires n <= |d|
    ensures ValTo([x] + d, b, n + 1) == ValTo(d, b, n) * b + x
  {
    if n == 0 {
      assert ValTo([x] + d, b, 0) == 0 && Pow(b, 0) == 1;
    } else {
      ShiftUp(d, x, b, n - 1);
      var y, p := d[n - 1], Pow(b, n - 1);
      assert ([x] + d)[n] == y;
      Distribute(ValTo(d, b, n - 1), y * p, b);
      Associate(y, p, b);
      Commute(p, b);
    }
  }

  // ---------------------------------------------------------------- one digit

  function Remainder(v: nat, b: nat): (r: nat)
    requires b >= 2
    ensures r < b
  {
    v % b
  }

  function Quotient(v: nat, b: nat): (q: nat)
    requires b >= 2
    ensures v > 0 ==> q < v
    ensures v == q * b + Remainder(v, b)
  {
    QuotientLess(v, b);
    v / b
  }

  lemma QuotientLess(v: nat, b: nat)
    requires b >= 2
    ensures v / b >= 0 && (v > 0 ==> v / b < v) && v == (v / b) * b + v % b
  {
    var q := v / b;
    assert v == b * q + v % b;
    Commute(q, b);
    if v > 0 && q > 0 { MulMono(2, b, q); }
  }

  /** The buffer holds a number in its lowest `length` digits. */
  ghost predicate Holds(d: seq<nat>, b: nat, length: nat) {
    && length <= |d| && Canonical(d[..length], b) && Digits(d, b) && (forall i :: length <= i < |d| ==> d[i] == 0)
  }

  lemma HoldsValue(d: seq<nat>, b: nat, length: nat)
    requires Holds(d, b, length)
    ensures Val(d, b) == ValTo(d, b, length) == Val(d[..length], b)
  {
    ValZeroAbove(d, b, length, |d|);
    ValSame(d, d[..length], b, length);
  }

  /** One position: the carry moves up. */
  lemma CarryStep(old': seq<nat>, d: seq<nat>, a: nat, b: nat, i: nat, carry: nat, ch: nat)
    requires b >= 2 && i < |d| == |old'| && d[i] == old'[i]
    requires ValTo(d, b, i) + carry * Pow(b, i) == a * ValTo(old', b, i) + ch
    ensures var n: nat := carry + a * d[i];
      ValTo(d[i := Remainder(n, b)], b, i + 1) + Quotient(n, b) * Pow(b, i + 1) == a * ValTo(old', b, i + 1) + ch
  {
    var n: nat := carry + a * d[i];
    var p, q, r := Pow(b, i), Quotient(n, b), Remainder(n, b);
    Commute(q, b);
    ValSame(d, d[i := r], b, i);
    Distribute(b * q, r, p);
    Distribute(carry, a * d[i], p);
    Associate(a, d[i], p);
    Distribute(ValTo(old', b, i), d[i] * p, a);
    assert q * (b * p) == b * q * p by { Associate(q, b, p); Commute(q, b); }
    Commute(a, ValTo(old', b, i));
    Commute(a, d[i] * p);
  }

  /** Multiply the number in the buffer by a and add ch; no carry is left over. */
  method MulAdd(d: array<nat>, a: nat, b: nat, ch: nat, length: nat) returns (length': nat)
    requires a >= 1 && b >= 2 && Holds(d[..], b, length) && a * Val(d[..], b) + ch < Pow(b, d.Length)
    modifies d
    ensures Holds(d[..], b, length') && length' >= length && Val(d[..], b) == a * old(Val(d[..], b)) + ch
  {
    ghost var o := d[..];
    var carry: nat := ch;
    var i := 0;
    MulAddStart(o, a, b, ch, length);
    while (carry != 0 || i < length) && i < d.Length
      invariant MulAddSoFar(o, d[..], a, b, ch, length, carry, i)
      decreases d.Length - i
    {
      ghost var s := d[..];
      MulAddNext(o, s, a, b, ch, length, carry, i);
      carry := carry + a * d[i];
      d[i] := Remainder(carry, b);
      assert d[..] == s[i := Remainder(carry, b)];
      carry := Quotient(carry, b);
      i := i + 1;
    }
    MulAddDone(o, d[..], a, b, ch, length, carry, i);
    assert carry == 0;
    length' := i;
  }

  /** The lowest i digits have been rewritten. */
  ghost predicate MulAddSoFar(o: seq<nat>, d: seq<nat>, a: nat, b: nat, ch: nat, length: nat, carry: nat, i: nat) {
    && |d| == |o| && i <= |d| && Digits(d, b) && (forall k :: i <= k < |d| ==> d[k] == o[k])
    && ValTo(d, b, i) + carry * Pow(b, i) == a * ValTo(o, b, i) + ch
    && (i > 0 && i >= length && carry == 0 ==> d[i - 1] != 0)
  }

  lemma MulAddStart(o: seq<nat>, a: nat, b: nat, ch: nat, length: nat)
    requires Holds(o, b, length)
    ensures MulAddSoFar(o, o, a, b, ch, length, ch, 0)
  {
    assert Pow(b, 0) == 1 && a * 0 == 0;
  }

  lemma MulAddNext(o: seq<nat>, d: seq<nat>, a: nat, b: nat, ch: nat, length: nat, carry: nat, i: nat)
    requires a >= 1 && b >= 2 && Holds(o, b, length) && MulAddSoFar(o, d, a, b, ch, length, carry, i)
    requires (carry != 0 || i < length) && i < |d|
    ensures var n: nat := carry + a * d[i];
      MulAddSoFar(o, d[i := Remainder(n, b)], a, b, ch, length, Quotient(n, b), i + 1)
  {
    var n: nat := carry + a * d[i];
    MulMono(1, a, d[i]);
    CarryStep(o, d, a, b, i, carry, ch);
    if i + 1 >= length && Quotient(n, b) == 0 && carry == 0 {
      assert o[..length][length - 1] == o[i];
    }
  }

  lemma MulAddDone(o: seq<nat>, d: seq<nat>, a: nat, b: nat, ch: nat, length: nat, carry: nat, i: nat)
    requires a >= 1 && b >= 2 && Holds(o, b, length) && MulAddSoFar(o, d, a, b, ch, length, carry, i)
    requires a * Val(o, b) + ch < Pow(b, |o|) && !((carry != 0 || i < length) && i < |d|)
    ensures carry == 0 && i >= length && Holds(d, b, i) && Val(d, b) == a * Val(o, b) + ch
  {
    HoldsValue(o, b, length);
    if i == |d| && carry > 0 {
      MulMono(1, carry, Pow(b, i));
    }
    ValZeroAbove(o, b, length, |o|);
    ValZeroAbove(o, b, length, i);
    ValZeroAbove(d, b, i, |d|);
  }

  // ---------------------------------------------------------------- canonical digits

  function ToDigits(v: nat, b: nat): seq<nat>
    requires b >= 2
  {
    if v == 0 then [] else [Remainder(v, b)] + ToDigits(Quotient(v, b), b)
  }

  lemma {:induction false} ToDigitsCanonical(v: nat, b: nat)
    requires b >= 2
    ensures Canonical(ToDigits(v, b), b) && Val(ToDigits(v, b), b) == v
    decreases v
  {
    if v > 0 {
      var q := Quotient(v, b);
      ToDigitsCanonical(q, b);
      var rest := ToDigits(q, b);
      ShiftUp(rest, Remainder(v, b), b, |rest|);
    }
  }

  /** The digits held are the canonical ones. */
  lemma HeldDigits(d: seq<nat>, b: nat, length: nat)
    requires b >= 2 && Holds(d, b, length)
    ensures d[..length] == ToDigits(Val(d, b), b)
  {
    HoldsValue(d, b, length);
    ToDigitsCanonical(Val(d, b), b);
    CanonicalUnique(d[..length], ToDigits(Val(d, b), b), b);
  }
}
