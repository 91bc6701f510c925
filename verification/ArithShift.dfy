/**
 Shifting an array of limbs (operator<<= and operator>>=, src/arith_uint256.cpp:13-45).
 */
module ArithShift {
  import opened Numbers
  import opened Limbs
  import opened ArithUint

  /** x << n in 32 bits. */
  function Shl(x: nat, n: nat): (r: nat)
    ensures r < BASE
  {
    Low(x * Pow2(n))
  }

  /** x >> n. */
  function Shr(x: nat, n: nat): nat {
    QuotientNotNegative(x, Pow2(n));
    x / Pow2(n)
  }

  lemma QuotientNotNegative(x: nat, d: nat)
    requires d > 0
    ensures x / d >= 0
  {
  }

  /** Shifting a limb left splits it into the part that stays and the part that moves on. */
  lemma ShlParts(x: nat, s: nat)
    requires x < BASE && s <= 32
    ensures Shl(x, s) + BASE * Shr(x, 32 - s) == x * Pow2(s)
    ensures Shl(x, s) == (x % Pow2(32 - s)) * Pow2(s) && Shr(x, 32 - s) < Pow2(s)
  {
    Pow2Base();
    Pow2Add(s, 32 - s);
    var p, t := Pow2(s), Pow2(32 - s);
    DivMod(x, t);
    PartsOf(x, p, t, x / t, x % t);
  }

  lemma PartsOf(x: nat, p: nat, t: nat, h: nat, r: nat)
    requires p * t == BASE && x == h * t + r && r < t && x < BASE
    ensures Low(x * p) == r * p && Low(x * p) + BASE * h == x * p && h < p
  {
    Parts(x, p, t, h, r);
    LowOf(x * p, h, r * p);
    Commute(h, BASE);
  }

  lemma DivMod(x: nat, t: nat)
    requires t > 0
    ensures x == (x / t) * t + x % t && x % t < t && x / t >= 0
  {
    Commute(x / t, t);
  }

  lemma Parts(x: nat, p: nat, t: nat, h: nat, r: nat)
    requires p * t == BASE && x == h * t + r && r < t && x < BASE
    ensures x * p == h * BASE + r * p && r * p < BASE && h < p
  {
    Distribute(h * t, r, p);
    Associate(h, t, p);
    Commute(t, p);
    MulMono(r + 1, t, p);
    Distribute(r, 1, p);
    if h >= p {
      MulMono(p, h, t);
    }
  }

  lemma LowOf(v: nat, h: nat, r: nat)
    requires v == h * BASE + r && r < BASE
    ensures Low(v) == r
  {
  }

  // ---------------------------------------------------------------- left

  /** Limb x goes to positions j and j + 1. */
  function ShlStep(s: seq<nat>, j: nat, x: nat, n: nat): seq<nat>
    requires n < 32
  {
    var s1 := if j + 1 < |s| && n != 0 then s[j + 1 := Or(s[j + 1], Shr(x, 32 - n))] else s;
    if j < |s| then s1[j := Or(s1[j], Shl(x, n))] else s1
  }

  /** Below the top, the positions that limb x goes to: j holds less than Pow2(n), the rest nothing. */
  ghost predicate Room(s: seq<nat>, j: nat, n: nat) {
    IsLimbs(s) && (j < |s| ==> s[j] < Pow2(n)) && forall i :: j < i < |s| ==> s[i] == 0
  }

  lemma ShlStepRoom(s: seq<nat>, j: nat, x: nat, n: nat)
    requires n < 32 && x < BASE && Room(s, j, n)
    ensures var s' := ShlStep(s, j, x, n);
      && |s'| == |s| && Room(s', j + 1, n)
      && (j < |s| ==> s'[j] == s[j] + Shl(x, n))
      && (j + 1 < |s| ==> s'[j + 1] == Shr(x, 32 - n))
      && (forall i :: 0 <= i < |s| && i != j && i != j + 1 ==> s'[i] == s[i])
  {
    ShlParts(x, n);
    OrZero(Shr(x, 32 - n));
    Pow2Base();
    if j < |s| {
      OrDisjoint(s[j], x % Pow2(32 - n), n);
      FitsLimb(s[j], x % Pow2(32 - n), n);
    }
    if n == 0 {
      assert Pow2(32 - n) == BASE && Shr(x, 32) == 0 by { DivisionUnique(x, BASE, 0, x); }
    } else {
      Pow2Mono(n, 32);
    }
  }

  /** Low bits below n and a multiple of 2^n that fits stay within the limb. */
  lemma FitsLimb(a: nat, m: nat, n: nat)
    requires n <= 32 && a < Pow2(n) && m < Pow2(32 - n)
    ensures a + m * Pow2(n) < BASE
  {
    Pow2Base();
    Pow2Add(32 - n, n);
    MulMono(m + 1, Pow2(32 - n), Pow2(n));
    Distribute(m, 1, Pow2(n));
  }

  /** What of x lands inside, and what falls off the top. */
  lemma ShlStepValue(s: seq<nat>, j: nat, x: nat, n: nat) returns (d: nat)
    requires n < 32 && x < BASE && Room(s, j, n)
    ensures |ShlStep(s, j, x, n)| == |s|
    ensures Val(ShlStep(s, j, x, n)) + d * Place(|s|) == Val(s) + x * Pow2(n) * Place(j)
  {
    ShlStepRoom(s, j, x, n);
    ShlParts(x, n);
    var lo, hi, p, w := Shl(x, n), Shr(x, 32 - n), Place(j), |s|;
    var s' := ShlStep(s, j, x, n);
    PlaceStep(j);
    Distribute(lo, BASE * hi, p);
    Associate(BASE, hi, p);
    assert x * Pow2(n) * p == lo * p + hi * Place(j + 1);
    if j + 1 < w {
      assert s' == s[j + 1 := hi][j := s[j] + lo];
      TwoUp(s, j, lo, hi);
      d := 0;
    } else if j < w {
      ValUpdate(s, j, s[j] + lo, w);
      assert s' == s[j := s[j] + lo];
      d := hi;
    } else {
      assert s' == s;
      d := x * Pow2(n) * Place(j - w);
      PlaceAdd(j - w, w);
      Associate(x * Pow2(n), Place(j - w), Place(w));
    }
  }

  lemma TwoUp(s: seq<nat>, j: nat, lo: nat, hi: nat)
    requires j + 1 < |s| && s[j + 1] == 0
    ensures Val(s[j + 1 := hi][j := s[j] + lo]) == Val(s) + lo * Place(j) + hi * Place(j + 1)
  {
    ValUpdate(s, j + 1, hi, |s|);
    ValUpdate(s[j + 1 := hi], j, s[j] + lo, |s|);
  }

  method SetZero(pn: array<nat>)
    modifies pn
    ensures Valid(pn) && Val(pn[..]) == 0 && forall k :: 0 <= k < pn.Length ==> pn[k] == 0
  {
    for i := 0 to pn.Length
      invariant forall k :: 0 <= k < i ==> pn[k] == 0
    {
      pn[i] := 0;
    }
    ValZero(pn[..], pn.Length);
  }

  method ShlLimb(pn: array<nat>, j: nat, x: nat, n: nat)
    requires n < 32
    modifies pn
    ensures pn[..] == ShlStep(old(pn[..]), j, x, n)
  {
    if j + 1 < pn.Length && n != 0 {
      pn[j + 1] := Or(pn[j + 1], Shr(x, 32 - n));
    }
    if j < pn.Length {
      pn[j] := Or(pn[j], Shl(x, n));
    }
  }

  /** operator<<=. */
  method ShiftLeft(pn: array<nat>, shift: nat)
    requires Valid(pn)
    modifies pn
    ensures Valid(pn) && Val(pn[..]) == (old(Val(pn[..])) * Pow2(shift)) % Modulus(pn)
  {
    var a := pn[..];
    SetZero(pn);
    var k, n := shift / 32, shift % 32;
    ghost var lost: nat := 0;
    for i := 0 to pn.Length
      invariant Room(pn[..], i + k, n)
      invariant Val(pn[..]) + lost * Modulus(pn) == ValTo(a, i) * Pow2(shift)
    {
      lost := ShlAdvance(pn[..], a, i, k, n, shift, lost);
      ShlLimb(pn, i + k, a[i], n);
    }
    Truncated(pn[..], lost, Val(a) * Pow2(shift));
  }

  lemma ShlAdvance(s: seq<nat>, a: seq<nat>, i: nat, k: nat, n: nat, shift: nat, lost: nat) returns (lost': nat)
    requires i < |a| && IsLimbs(a) && n < 32 && shift == 32 * k + n && Room(s, i + k, n)
    requires Val(s) + lost * Place(|s|) == ValTo(a, i) * Pow2(shift)
    ensures var s' := ShlStep(s, i + k, a[i], n);
      |s'| == |s| && Room(s', i + 1 + k, n) && Val(s') + lost' * Place(|s|) == ValTo(a, i + 1) * Pow2(shift)
  {
    var d := ShlStepValue(s, i + k, a[i], n);
    ShlStepRoom(s, i + k, a[i], n);
    ShiftedLimb(a[i], i, k, n, shift);
    Distribute(ValTo(a, i), a[i] * Place(i), Pow2(shift));
    Distribute(lost, d, Place(|s|));
    lost' := lost + d;
  }

  lemma ShiftedLimb(x: nat, i: nat, k: nat, n: nat, shift: nat)
    requires shift == 32 * k + n
    ensures x * Place(i) * Pow2(shift) == x * Pow2(n) * Place(i + k)
  {
    Pow2Add(32 * k, n);
    PlaceAdd(i, k);
    Associate(x, Place(i), Pow2(shift));
    Associate(x, Pow2(n), Place(i + k));
    Associate(Place(i), Place(k), Pow2(n));
    Commute(Place(i) * Place(k), Pow2(n));
  }

  // ---------------------------------------------------------------- right

  /** Limb x goes to positions j and j - 1. */
  function ShrStep(s: seq<nat>, j: int, x: nat, n: nat): seq<nat>
    requires n < 32 && j < |s|
  {
    var s1 := if j - 1 >= 0 && n != 0 then s[j - 1 := Or(s[j - 1], Shl(x, 32 - n))] else s;
    if j >= 0 then s1[j := Or(s1[j], Shr(x, n))] else s1
  }

  /** The positions that limb x goes to: j - 1 holds less than Pow2(32 - n), from j on nothing. */
  ghost predicate RoomBelow(s: seq<nat>, j: int, n: nat)
    requires n <= 32
  {
    IsLimbs(s) && (0 < j <= |s| ==> s[j - 1] < Pow2(32 - n)) && forall i :: 0 <= i < |s| && j <= i ==> s[i] == 0
  }

  /** Shifting a limb right splits it into what stays and what moves to the limb below. */
  lemma ShrParts(x: nat, n: nat)
    requires x < BASE && n < 32
    ensures Shr(x, n) * Pow2(n) + x % Pow2(n) == x && x % Pow2(n) < Pow2(n) && Shr(x, n) < Pow2(32 - n)
    ensures n > 0 ==> Shl(x, 32 - n) == (x % Pow2(n)) * Pow2(32 - n)
  {
    Pow2Base();
    Pow2Add(n, 32 - n);
    DivMod(x, Pow2(n));
    if Shr(x, n) >= Pow2(32 - n) {
      MulMono(Pow2(32 - n), Shr(x, n), Pow2(n));
      Commute(Pow2(32 - n), Pow2(n));
    }
    if n > 0 {
      ShlParts(x, 32 - n);
    }
  }

  /** What the lower limb y, with room for it, becomes when the low bits of x move there. */
  lemma ShrLow(y: nat, x: nat, n: nat)
    requires 0 < n < 32 && x < BASE && y < Pow2(32 - n)
    ensures Or(y, Shl(x, 32 - n)) == y + (x % Pow2(n)) * Pow2(32 - n) < BASE
  {
    ShrParts(x, n);
    OrDisjoint(y, x % Pow2(n), 32 - n);
    FitsLimb(y, x % Pow2(n), 32 - n);
  }

  lemma ShrHigh(x: nat, n: nat)
    requires n < 32 && x < BASE
    ensures Or(0, Shr(x, n)) == Shr(x, n) < Pow2(32 - n) <= BASE
  {
    ShrParts(x, n);
    OrZero(Shr(x, n));
    Pow2Base();
    Pow2Mono(32 - n, 32);
  }

  lemma ShrStepRoom(s: seq<nat>, j: int, x: nat, n: nat)
    requires n < 32 && x < BASE && j < |s| && RoomBelow(s, j, n)
    ensures var s' := ShrStep(s, j, x, n);
      && |s'| == |s| && RoomBelow(s', j + 1, n)
      && (j >= 0 ==> s'[j] == Shr(x, n))
      && (j >= 1 ==> s'[j - 1] == s[j - 1] + if n == 0 then 0 else (x % Pow2(n)) * Pow2(32 - n))
      && (forall i :: 0 <= i < |s| && i != j && i != j - 1 ==> s'[i] == s[i])
  {
    ShrHigh(x, n);
    if j >= 1 && n != 0 {
      ShrLow(s[j - 1], x, n);
    }
  }

  /** The lowest limb of the result takes all of x but the bits that fall off the bottom. */
  lemma ShrBottom(s: seq<nat>, x: nat, n: nat)
    requires n < 32 && x < BASE && 0 < |s| && RoomBelow(s, 0, n)
    ensures var s' := ShrStep(s, 0, x, n);
      |s'| == |s| && Val(s') * Pow2(n) + x % Pow2(n) == Val(s) * Pow2(n) + x
  {
    ShrParts(x, n);
    ShrBottomIs(s, x, n);
    Distribute(Val(s), Shr(x, n), Pow2(n));
  }

  lemma ShrBottomIs(s: seq<nat>, x: nat, n: nat)
    requires n < 32 && x < BASE && 0 < |s| && RoomBelow(s, 0, n)
    ensures |ShrStep(s, 0, x, n)| == |s| && Val(ShrStep(s, 0, x, n)) == Val(s) + Shr(x, n)
  {
    ShrStepRoom(s, 0, x, n);
    var q := Shr(x, n);
    ValUpdate(s, 0, q, |s|);
    assert ShrStep(s, 0, x, n) == s[0 := q];
    assert Place(0) == 1;
  }

  /** Elsewhere limb x adds its value, in units of 2^-n. */
  lemma ShrMiddle(s: seq<nat>, j: nat, x: nat, n: nat)
    requires n < 32 && x < BASE && 0 < j < |s| && RoomBelow(s, j, n)
    ensures var s' := ShrStep(s, j, x, n);
      |s'| == |s| && Val(s') * Pow2(n) == Val(s) * Pow2(n) + x * Place(j)
  {
    var q, r := Shr(x, n), x % Pow2(n);
    ShrParts(x, n);
    var t := if n == 0 then 0 else r * Pow2(32 - n);
    ShrMiddleIs(s, j, x, n, q, t);
    TwoLimbs(s, j, q, t);
    LowerLimb(r, n, j);
    TwoParts(Val(s), t, q, r, x, Pow2(n), Place(j - 1), Place(j));
  }

  lemma ShrMiddleIs(s: seq<nat>, j: nat, x: nat, n: nat, q: nat, t: nat)
    requires n < 32 && x < BASE && 0 < j < |s| && RoomBelow(s, j, n)
    requires q == Shr(x, n) && t == if n == 0 then 0 else (x % Pow2(n)) * Pow2(32 - n)
    ensures ShrStep(s, j, x, n) == s[j - 1 := s[j - 1] + t][j := q]
  {
    ShrStepRoom(s, j, x, n);
  }

  lemma TwoLimbs(s: seq<nat>, j: nat, q: nat, t: nat)
    requires 0 < j < |s| && s[j] == 0
    ensures Val(s[j - 1 := s[j - 1] + t][j := q]) == Val(s) + t * Place(j - 1) + q * Place(j)
  {
    ValUpdate(s, j - 1, s[j - 1] + t, |s|);
    ValUpdate(s[j - 1 := s[j - 1] + t], j, q, |s|);
  }

  lemma TwoParts(v: int, t: int, q: int, r: int, x: int, p: int, b: int, c: int)
    requires x == q * p + r && t * b * p == r * c
    ensures (v + t * b + q * c) * p == v * p + x * c
  {
    Distribute(v, t * b + q * c, p);
    Distribute(t * b, q * c, p);
    Associate(q, c, p);
    Associate(q, p, c);
    Commute(c, p);
    Distribute(q * p, r, c);
  }

  /** The bits moved down one limb keep their weight. */
  lemma LowerLimb(r: nat, n: nat, j: nat)
    requires n < 32 && j > 0 && (n == 0 ==> r == 0)
    ensures (if n == 0 then 0 else r * Pow2(32 - n)) * Place(j - 1) * Pow2(n) == r * Place(j)
  {
    if n > 0 {
      Pow2Base();
      Pow2Add(32 - n, n);
      PlaceStep(j - 1);
      FourFactors(r, Pow2(32 - n), Place(j - 1), Pow2(n));
    }
  }

  lemma FourFactors(r: nat, a: nat, b: nat, c: nat)
    ensures r * a * b * c == r * (a * c * b)
  {
    calc {
      r * a * b * c;
      { Associate(r * a, b, c); }
      r * a * (b * c);
      { Associate(r, a, b * c); }
      r * (a * (b * c));
      { Associate(a, b, c); }
      r * (b * (a * c));
      { Commute(b, a * c); }
      r * (a * c * b);
    }
  }

  method ShrLimb(pn: array<nat>, j: int, x: nat, n: nat)
    requires n < 32 && j < pn.Length
    modifies pn
    ensures pn[..] == ShrStep(old(pn[..]), j, x, n)
  {
    if j - 1 >= 0 && n != 0 {
      pn[j - 1] := Or(pn[j - 1], Shl(x, 32 - n));
    }
    if j >= 0 {
      pn[j] := Or(pn[j], Shr(x, n));
    }
  }

  /** After i limbs: what has fallen off the bottom is less than 2^shift. */
  ghost predicate ShrSoFar(s: seq<nat>, a: seq<nat>, i: nat, k: nat, n: nat, lost: nat)
    requires i <= |a|
  {
    && Val(s) * Pow2(n) * Place(k) + lost == ValTo(a, i)
    && (if i <= k then Val(s) == 0 else lost < Pow2(n) * Place(k))
  }

  lemma ShrAdvance(s: seq<nat>, a: seq<nat>, i: nat, k: nat, n: nat, lost: nat) returns (lost': nat)
    requires i < |a| == |s| && IsLimbs(a) && n < 32 && RoomBelow(s, i - k, n) && ShrSoFar(s, a, i, k, n, lost)
    ensures var s' := ShrStep(s, i - k, a[i], n);
      |s'| == |s| && RoomBelow(s', i + 1 - k, n) && ShrSoFar(s', a, i + 1, k, n, lost')
  {
    ShrStepRoom(s, i - k, a[i], n);
    if i < k {
      lost' := lost + a[i] * Place(i);
    } else if i == k {
      lost' := ShrFirst(s, a, k, n, lost);
    } else {
      lost' := lost;
      ShrLater(s, a, i, k, n, lost);
    }
  }

  lemma ShrFirst(s: seq<nat>, a: seq<nat>, k: nat, n: nat, lost: nat) returns (lost': nat)
    requires k < |a| == |s| && IsLimbs(a) && n < 32 && RoomBelow(s, 0, n) && ShrSoFar(s, a, k, k, n, lost)
    ensures ShrSoFar(ShrStep(s, 0, a[k], n), a, k + 1, k, n, lost')
  {
    var x, p := a[k], Pow2(n);
    ShrBottom(s, x, n);
    ShrParts(x, n);
    ValBound(a, k);
    FirstKept(Val(s), Val(ShrStep(s, 0, x, n)), x, p, x % p, Place(k), lost);
    lost' := lost + (x % p) * Place(k);
  }

  lemma ShrLater(s: seq<nat>, a: seq<nat>, i: nat, k: nat, n: nat, lost: nat)
    requires k < i < |a| == |s| && IsLimbs(a) && n < 32 && RoomBelow(s, i - k, n) && ShrSoFar(s, a, i, k, n, lost)
    ensures ShrSoFar(ShrStep(s, i - k, a[i], n), a, i + 1, k, n, lost)
  {
    ShrMiddle(s, i - k, a[i], n);
    PlaceAdd(i - k, k);
    Associate(a[i], Place(i - k), Place(k));
    Distribute(Val(s) * Pow2(n), a[i] * Place(i - k), Place(k));
  }

  /** The limb at which the result starts loses its low bits. */
  lemma FirstKept(v: nat, v': nat, x: nat, p: nat, r: nat, c: nat, lost: nat)
    requires v' * p + r == v * p + x && r < p && lost < c
    ensures v' * p * c + (lost + r * c) == v * p * c + lost + x * c
    ensures lost + r * c < p * c
  {
    Distribute(v' * p, r, c);
    Distribute(v * p, x, c);
    MulMono(r + 1, p, c);
    Distribute(r, 1, c);
  }

  /** operator>>=. */
  method ShiftRight(pn: array<nat>, shift: nat)
    requires Valid(pn)
    modifies pn
    ensures Valid(pn) && Val(pn[..]) == old(Val(pn[..])) / Pow2(shift)
  {
    var a := pn[..];
    SetZero(pn);
    var k, n := shift / 32, shift % 32;
    ghost var lost: nat := 0;
    for i := 0 to pn.Length
      invariant RoomBelow(pn[..], i - k, n) && ShrSoFar(pn[..], a, i, k, n, lost)
    {
      lost := ShrAdvance(pn[..], a, i, k, n, lost);
      ShrLimb(pn, i - k, a[i], n);
    }
    ShrDone(pn[..], a, k, n, shift, lost);
  }

  lemma ShrDone(s: seq<nat>, a: seq<nat>, k: nat, n: nat, shift: nat, lost: nat)
    requires IsLimbs(a) && ShrSoFar(s, a, |a|, k, n, lost) && shift == 32 * k + n
    ensures Val(s) == Val(a) / Pow2(shift)
  {
    Pow2Add(n, 32 * k);
    Associate(Val(s), Pow2(n), Place(k));
    if |a| <= k {
      ValBound(a, |a|);
      Pow2Mono(32 * |a|, shift);
    }
    DivisionUnique(Val(a), Pow2(shift), Val(s), lost);
  }
}
