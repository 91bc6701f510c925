/**
 Multiplication and division of limb arrays
 (operator*= and operator/=, src/arith_uint256.cpp:47-99).
 */
module ArithMulDiv {
  import opened Numbers
  import opened Limbs
  import opened ArithUint
  import opened ArithShift

  // ---------------------------------------------------------------- multiplication

  /** A limb product plus two carries fits 64 bits, so that the next carry fits a limb. */
  lemma ProductFits(carry: nat, x: nat, y: nat, z: nat)
    requires carry < BASE && x < BASE && y < BASE && z < BASE
    ensures 0 <= x * y
    ensures carry + z + x * y < BASE * BASE && Carry(carry + z + x * y) < BASE
  {
    MulMono(x, BASE - 1, y);
    MulMono(y, BASE - 1, BASE - 1);
    var n := carry + z + x * y;
    assert n <= 2 * (BASE - 1) + (BASE - 1) * (BASE - 1);
  }

  /** One limb product added at position k. */
  lemma ProductStep(s: seq<nat>, k: nat, carry: nat, x: nat, y: nat)
    requires k < |s|
    ensures var n := carry + s[k] + x * y;
      Val(s[k := Low(n)]) + Carry(n) * Place(k + 1) == Val(s) + carry * Place(k) + x * y * Place(k)
  {
    var n := carry + s[k] + x * y;
    CarryStep(s, k, n);
    Distribute(carry, x * y, Place(k));
  }

  lemma ProductPlaces(x: nat, y: nat, i: nat, j: nat)
    ensures x * Place(j) * (y * Place(i)) == x * y * Place(i + j)
  {
    PlaceAdd(i, j);
    Associate(x, Place(j), y * Place(i));
    Associate(Place(j), y, Place(i));
    Associate(x, y, Place(i + j));
    Commute(Place(i), Place(j));
    assert Place(j) * (y * Place(i)) == y * (Place(j) * Place(i)) by { Associate(Place(j), y, Place(i)); }
  }

  /** One row: a := a + x * b * Place(j), keeping what fits. */
  method AddRow(a: array<nat>, x: nat, b: seq<nat>, j: nat) returns (carry: nat)
    requires Valid(a) && IsLimbs(b) && |b| == a.Length && x < BASE && j < a.Length
    modifies a
    ensures Valid(a) && carry < BASE
    ensures Added(old(Val(a[..])), Val(a[..]), carry, Modulus(a), x * Place(j), ValTo(b, a.Length - j))
  {
    carry := 0;
    var i := 0;
    assert x * Place(j) * 0 == 0;
    while i + j < a.Length
      invariant i + j <= a.Length && Valid(a) && carry < BASE
      invariant Val(a[..]) + carry * Place(i + j) == old(Val(a[..])) + x * Place(j) * ValTo(b, i)
    {
      carry := AddProduct(a, i, j, carry, x, b);
      i := i + 1;
    }
  }

  method AddProduct(a: array<nat>, i: nat, j: nat, carry: nat, x: nat, b: seq<nat>) returns (carry': nat)
    requires Valid(a) && IsLimbs(b) && |b| == a.Length && x < BASE && i + j < a.Length && carry < BASE
    modifies a
    ensures Valid(a) && carry' < BASE
    ensures Val(a[..]) + carry' * Place(i + 1 + j) - x * Place(j) * ValTo(b, i + 1)
         == old(Val(a[..])) + carry * Place(i + j) - x * Place(j) * ValTo(b, i)
  {
    ghost var s := a[..];
    var n := carry + a[i + j] + x * b[i];
    ProductFits(carry, x, b[i], a[i + j]);
    ProductStep(s, i + j, carry, x, b[i]);
    a[i + j] := Low(n);
    assert a[..] == s[i + j := Low(n)];
    carry' := Carry(n);
    ProductPlaces(x, b[i], i, j);
    Distribute(ValTo(b, i), b[i] * Place(i), x * Place(j));
  }

  /** The schoolbook product, keeping as many limbs as the operands have. */
  method Product(p: seq<nat>, b: seq<nat>) returns (a: array<nat>, ghost lost: nat)
    requires IsLimbs(p) && IsLimbs(b) && |b| == |p|
    ensures fresh(a) && a.Length == |p| && Valid(a) && Val(a[..]) + lost * Place(|p|) == Val(p) * Val(b)
  {
    a := new nat[|p|];
    SetZero(a);
    lost := 0;
    for j := 0 to |p|
      invariant Valid(a) && Partial(Val(a[..]), lost, Place(|b|), ValTo(p, j), Val(b))
    {
      lost := AddRowOf(a, p, b, j, lost);
    }
  }

  /** The rows added so far make done * total; what did not fit is a multiple of the modulus. */
  ghost predicate Partial(v: nat, lost: nat, modulus: nat, done: nat, total: nat) {
    v + lost * modulus == done * total
  }

  /** A row that adds y * low to v. */
  ghost predicate Added(v: nat, v': nat, carry: nat, modulus: nat, y: nat, low: nat) {
    v' + carry * modulus == v + y * low
  }

  method AddRowOf(a: array<nat>, p: seq<nat>, b: seq<nat>, j: nat, ghost lost: nat) returns (ghost lost': nat)
    requires Valid(a) && IsLimbs(p) && IsLimbs(b) && |b| == |p| == a.Length && j < |p| && Partial(Val(a[..]), lost, Place(|b|), ValTo(p, j), Val(b))
    modifies a
    ensures Valid(a) && Partial(Val(a[..]), lost', Place(|b|), ValTo(p, j + 1), Val(b))
  {
    ghost var v := Val(a[..]);
    var carry := AddRow(a, p[j], b, j);
    lost' := RowAdded(v, Val(a[..]), carry, lost, p, b, j);
  }

  lemma RowAdded(v: nat, v': nat, carry: nat, lost: nat, p: seq<nat>, b: seq<nat>, j: nat) returns (lost': nat)
    requires |b| == |p| && j < |p| && Partial(v, lost, Place(|b|), ValTo(p, j), Val(b))
    requires Added(v, v', carry, Place(|b|), p[j] * Place(j), ValTo(b, |b| - j))
    ensures Partial(v', lost', Place(|b|), ValTo(p, j + 1), Val(b))
  {
    var h, low := SplitAt(b, Val(b), |b| - j);
    var done := Grown(p, j, p[j] * Place(j), ValTo(p, j + 1));
    lost' := lost + carry + p[j] * h;
    RowLost(v', v, carry, lost, done, p[j], h, low, Val(b), ValTo(p, j + 1), |b|, j);
  }

  lemma SplitAt(b: seq<nat>, total: nat, n: nat) returns (h: nat, low: nat)
    requires n <= |b| && total == Val(b)
    ensures low == ValTo(b, n) && total == low + h * Place(n)
  {
    ValSplit(b, n);
    h, low := High(b, n), ValTo(b, n);
  }

  lemma Grown(p: seq<nat>, j: nat, y: nat, done': nat) returns (done: nat)
    requires j < |p| && y == p[j] * Place(j) && done' == ValTo(p, j + 1)
    ensures done == ValTo(p, j) && done' == done + y
  {
    done := ValTo(p, j);
  }

  method Assign(pn: array<nat>, a: seq<nat>)
    requires |a| == pn.Length
    modifies pn
    ensures pn[..] == a
  {
    for i := 0 to pn.Length
      invariant pn[..i] == a[..i]
    {
      pn[i] := a[i];
    }
  }

  /** operator*=: multiplication modulo 2^BITS. */
  method Mul(pn: array<nat>, b: seq<nat>)
    requires Valid(pn) && IsLimbs(b) && |b| == pn.Length
    modifies pn
    ensures Valid(pn) && Val(pn[..]) == (old(Val(pn[..])) * Val(b)) % Modulus(pn)
  {
    var a, lost := Product(pn[..], b);
    Truncated(a[..], lost, Val(pn[..]) * Val(b));
    Assign(pn, a[..]);
  }

  /** Everything a row does not keep is a multiple of the modulus. */
  lemma RowLost(v': nat, v: nat, carry: nat, lost: nat, done: nat, x: nat, h: nat, low: nat, total: nat, done': nat, w: nat, j: nat)
    requires j <= w && total == low + h * Place(w - j) && done' == done + x * Place(j)
    requires Added(v, v', carry, Place(w), x * Place(j), low) && Partial(v, lost, Place(w), done, total)
    ensures Partial(v', lost + carry + x * h, Place(w), done', total)
  {
    ProductPlaces(x, h, w - j, j);
    RowNumbers(v', v, carry, lost, done, x, h, Place(w), x * Place(j), low, h * Place(w - j));
  }

  lemma RowNumbers(v': int, v: int, carry: int, lost: int, done: int, x: int, h: int, m: int, y: int, low: int, high: int)
    requires v' + carry * m == v + y * low && v + lost * m == done * (low + high) && y * high == x * h * m
    ensures v' + (lost + carry + x * h) * m == (done + y) * (low + high)
  {
    Distribute(lost + carry, x * h, m);
    Distribute(lost, carry, m);
    Distribute(done, y, low + high);
    Distribute(low, high, y);
  }

  // ---------------------------------------------------------------- division

  lemma {:induction false} OrCommutes(a: nat, b: nat)
    ensures Or(a, b) == Or(b, a)
    decreases a + b
  {
    if a == 0 || b == 0 {
      OrZero(a);
      OrZero(b);
    } else {
      OrCommutes(a / 2, b / 2);
    }
  }

  /** No bit up to and including bit `shift` is set. */
  ghost predicate LowClear(s: seq<nat>, shift: nat) {
    && shift < 32 * |s| && IsLimbs(s) && (forall i :: 0 <= i < shift / 32 ==> s[i] == 0)
    && s[shift / 32] % Pow2(shift % 32 + 1) == 0
  }

  function SetBit(s: seq<nat>, shift: nat): seq<nat>
    requires shift < 32 * |s|
  {
    s[shift / 32 := Or(s[shift / 32], Pow2(shift % 32))]
  }

  /** Setting a clear bit adds its value. */
  lemma SetBitValue(s: seq<nat>, shift: nat)
    requires LowClear(s, shift)
    ensures Val(SetBit(s, shift)) == Val(s) + Pow2(shift) && IsLimbs(SetBit(s, shift))
    ensures SetBit(s, shift)[shift / 32] == s[shift / 32] + Pow2(shift % 32)
  {
    var l, t := shift / 32, shift % 32;
    BitSet(s[l], t);
    ValUpdate(s, l, s[l] + Pow2(t), |s|);
    Pow2Add(t, 32 * l);
  }

  /** Setting bit t of a limb whose bits up to t are clear. */
  lemma BitSet(x: nat, t: nat)
    requires t < 32 && x < BASE && x % Pow2(t + 1) == 0
    ensures Or(x, Pow2(t)) == x + Pow2(t) < BASE
  {
    var p := Pow2(t + 1);
    DivMod(x, p);
    OrDisjoint(Pow2(t), x / p, t + 1);
    OrCommutes(x, Pow2(t));
    LimbRoom(x, x / p, t);
  }

  lemma LimbRoom(x: nat, m: nat, t: nat)
    requires t < 32 && x == m * Pow2(t + 1) && x < BASE
    ensures x + Pow2(t) < BASE
  {
    Pow2Base();
    Pow2Add(32 - (t + 1), t + 1);
    var p, k := Pow2(t + 1), Pow2(32 - (t + 1));
    if m >= k {
      MulMono(k, m, p);
    }
    FitsLimb(Pow2(t), m, t + 1);
  }

  /** One bit further down. */
  lemma LowClearDown(s: seq<nat>, s': seq<nat>, shift: nat, d: nat)
    requires shift > 0 && LowClear(s, shift) && |s'| == |s| && IsLimbs(s') && (d == 0 || d == Pow2(shift % 32))
    requires s'[shift / 32] == s[shift / 32] + d && forall i :: 0 <= i < |s| && i != shift / 32 ==> s'[i] == s[i]
    ensures LowClear(s', shift - 1)
  {
    var l, t := shift / 32, shift % 32;
    if t == 0 {
      assert (shift - 1) / 32 == l - 1 && (shift - 1) % 32 == 31;
      assert s'[l - 1] == 0;
    } else {
      assert (shift - 1) / 32 == l && (shift - 1) % 32 == t - 1;
      StillClear(s[l], t, d);
    }
  }

  lemma StillClear(x: nat, t: nat, d: nat)
    requires x % Pow2(t + 1) == 0 && (d == 0 || d == Pow2(t))
    ensures (x + d) % Pow2(t) == 0
  {
    var p := Pow2(t);
    DivMod(x, Pow2(t + 1));
    var m := x / Pow2(t + 1);
    Associate(m, 2, p);
    var q := 2 * m + if d == 0 then 0 else 1;
    Distribute(2 * m, if d == 0 then 0 else 1, p);
    DivisionUnique(x + d, p, q, 0);
  }

  /** The state of the long division: n = quotient * d + num, num below d * 2^(shift + 1). */
  ghost predicate Dividing(n: nat, d: nat, quotient: nat, num: nat, shift: int) {
    shift >= -1 && num + quotient * d == n && num < d * Pow2(shift + 1)
  }

  lemma SubtractStep(n: nat, d: nat, quotient: nat, num: nat, shift: nat)
    requires Dividing(n, d, quotient, num, shift)
    ensures num >= d * Pow2(shift) ==> Dividing(n, d, quotient + Pow2(shift), num - d * Pow2(shift), shift - 1)
    ensures num < d * Pow2(shift) ==> Dividing(n, d, quotient, num, shift - 1)
  {
    var p := Pow2(shift);
    assert d * Pow2(shift + 1) == 2 * (d * p) by { Associate(d, 2, p); }
    Distribute(quotient, p, d);
    Commute(p, d);
  }

  /** Aligning the divisor with the number. */
  lemma Aligned(n: nat, d: nat, nBits: nat, dBits: nat, m: nat)
    requires BitLength(n, nBits) && BitLength(d, dBits) && 0 < dBits <= nBits && Pow2(nBits) <= m
    ensures d * Pow2(nBits - dBits) < m && Dividing(n, d, 0, n, nBits - dBits)
  {
    var s := nBits - dBits;
    Pow2Add(dBits, s);
    Pow2Add(dBits - 1, s + 1);
    MulMono(Pow2(dBits - 1), d, Pow2(s + 1));
    MulMono(d + 1, Pow2(dBits), Pow2(s));
    Distribute(d, 1, Pow2(s));
  }

  lemma HalfDivisor(d: nat, shift: nat)
    requires shift > 0
    ensures (d * Pow2(shift)) / Pow2(1) == d * Pow2(shift - 1)
  {
    var p := Pow2(shift - 1);
    assert d * Pow2(shift) == (d * p) * 2 by { Associate(d, 2, p); }
    assert Pow2(1) == 2;
  }

  method Copy(s: seq<nat>) returns (a: array<nat>)
    requires IsLimbs(s)
    ensures fresh(a) && a[..] == s && Valid(a)
  {
    a := new nat[|s|];
    Assign(a, s);
  }

  /** One step of the long division. */
  method DivStep(pn: array<nat>, num: array<nat>, div: array<nat>, shift: nat, ghost n: nat, ghost d: nat)
    requires pn != num && num != div && pn != div && pn.Length == num.Length == div.Length
    requires Valid(num) && Valid(div) && LowClear(pn[..], shift) && Val(div[..]) == d * Pow2(shift)
    requires Dividing(n, d, Val(pn[..]), Val(num[..]), shift)
    modifies pn, num
    ensures Valid(pn) && Valid(num) && (shift > 0 ==> LowClear(pn[..], shift - 1))
    ensures Dividing(n, d, Val(pn[..]), Val(num[..]), shift - 1)
  {
    ghost var s := pn[..];
    SubtractStep(n, d, Val(s), Val(num[..]), shift);
    var c := CompareTo(num[..], div[..]);
    if c >= 0 {
      Sub(num, div[..]);
      SetBitValue(s, shift);
      pn[shift / 32] := Or(pn[shift / 32], Pow2(shift % 32));
      assert pn[..] == SetBit(s, shift);
    }
    if shift > 0 {
      LowClearDown(s, pn[..], shift, if c >= 0 then Pow2(shift % 32) else 0);
    }
  }

  /** operator/=: floor division; the error is reported instead of thrown. */
  method Div(pn: array<nat>, b: seq<nat>) returns (ok: bool)
    requires Valid(pn) && IsLimbs(b) && |b| == pn.Length
    modifies pn
    ensures Valid(pn) && (ok <==> Val(b) != 0)
    ensures ok ==> Val(pn[..]) == old(Val(pn[..])) / Val(b)
  {
    var div := Copy(b);
    var num := Copy(pn[..]);
    SetZero(pn);
    var numBits := Bits(num[..]);
    var divBits := Bits(div[..]);
    if divBits == 0 {
      return false;
    }
    ghost var n, d := Val(num[..]), Val(b);
    if divBits > numBits {
      SmallerNumber(n, d, numBits, divBits);
      return true;
    }
    AlignAndDivide(pn, num, div, numBits, divBits);
    return true;
  }

  /** A shift that does not overflow. */
  method ShiftLeftExact(pn: array<nat>, shift: nat)
    requires Valid(pn) && Val(pn[..]) * Pow2(shift) < Modulus(pn)
    modifies pn
    ensures Valid(pn) && Val(pn[..]) == old(Val(pn[..])) * Pow2(shift)
  {
    ghost var v := Val(pn[..]) * Pow2(shift);
    DivisionUnique(v, Modulus(pn), 0, v);
    ShiftLeft(pn, shift);
  }

  /** Shift so that div and num align, then divide. */
  method AlignAndDivide(pn: array<nat>, num: array<nat>, div: array<nat>, numBits: nat, divBits: nat)
    requires pn != num && num != div && pn != div && pn.Length == num.Length == div.Length
    requires Valid(num) && Valid(div) && Val(pn[..]) == 0 && forall k :: 0 <= k < pn.Length ==> pn[k] == 0
    requires BitLength(Val(num[..]), numBits) && BitLength(Val(div[..]), divBits) && 0 < divBits <= numBits <= 32 * pn.Length
    modifies pn, num, div
    ensures Valid(pn) && old(Val(div[..])) > 0 && Val(pn[..]) == old(Val(num[..])) / old(Val(div[..]))
  {
    ghost var n, d := Val(num[..]), Val(div[..]);
    var shift := numBits - divBits;
    Pow2Mono(numBits, 32 * pn.Length);
    Aligned(n, d, numBits, divBits, Modulus(pn));
    ShiftLeftExact(div, shift);
    AllClear(pn[..], shift);
    DivLoop(pn, num, div, shift, n, d);
  }

  /** The shift-and-subtract loop. */
  method DivLoop(pn: array<nat>, num: array<nat>, div: array<nat>, start: nat, ghost n: nat, ghost d: nat)
    requires pn != num && num != div && pn != div && pn.Length == num.Length == div.Length
    requires Valid(num) && Valid(div) && LowClear(pn[..], start) && Val(div[..]) == d * Pow2(start) && d > 0
    requires Dividing(n, d, Val(pn[..]), Val(num[..]), start)
    modifies pn, num, div
    ensures Valid(pn) && Val(pn[..]) == n / d
  {
    var shift: int := start;
    while shift >= 0
      invariant -1 <= shift < 32 * pn.Length && Valid(pn) && Valid(num) && Valid(div)
      invariant Dividing(n, d, Val(pn[..]), Val(num[..]), shift)
      invariant shift >= 0 ==> LowClear(pn[..], shift) && Val(div[..]) == d * Pow2(shift)
    {
      DivStep(pn, num, div, shift, n, d);
      ShiftRight(div, 1);
      if shift > 0 {
        HalfDivisor(d, shift);
      }
      shift := shift - 1;
    }
    Divided(n, d, Val(pn[..]), Val(num[..]));
  }

  lemma Divided(n: nat, d: nat, quotient: nat, num: nat)
    requires Dividing(n, d, quotient, num, -1) && d > 0
    ensures quotient == n / d
  {
    assert Pow2(0) == 1;
    DivisionUnique(n, d, quotient, num);
  }

  lemma SmallerNumber(n: nat, d: nat, nBits: nat, dBits: nat)
    requires BitLength(n, nBits) && BitLength(d, dBits) && dBits > nBits
    ensures n < d && d > 0 && n / d == 0
  {
    Pow2Mono(nBits, dBits - 1);
    DivisionUnique(n, d, 0, n);
  }

  lemma AllClear(s: seq<nat>, shift: nat)
    requires shift < 32 * |s| && forall i :: 0 <= i < |s| ==> s[i] == 0
    ensures LowClear(s, shift)
  {
    DivisionUnique(0, Pow2(shift % 32 + 1), 0, 0);
  }
}
