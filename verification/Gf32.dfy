/**
 Arithmetic in GF(32) by logarithm tables (src/codex32.cpp:36-87).

 Elements are 5-bit values, here given by their bits: polynomials over GF(2) modulo a^5 + a^3 + 1.
 Addition is exclusive or.
 */
module Gf32 {

  datatype Symbol = Symbol(b4: bool, b3: bool, b2: bool, b1: bool, b0: bool)

  const ZERO := Symbol(false, false, false, false, false)
  const ONE := Symbol(false, false, false, false, true)

  function Num(b: bool): nat {
    if b then 1 else 0
  }

  function ToNat(x: Symbol): (n: nat)
    ensures n < 32
  {
    16 * Num(x.b4) + 8 * Num(x.b3) + 4 * Num(x.b2) + 2 * Num(x.b1) + Num(x.b0)
  }

  function Of(n: nat): Symbol {
    Symbol(n / 16 % 2 == 1, n / 8 % 2 == 1, n / 4 % 2 == 1, n / 2 % 2 == 1, n % 2 == 1)
  }

  function Xor(x: Symbol, y: Symbol): Symbol {
    Symbol(x.b4 != y.b4, x.b3 != y.b3, x.b2 != y.b2, x.b1 != y.b1, x.b0 != y.b0)
  }

  function Pick(b: bool, x: Symbol): Symbol {
    if b then x else ZERO
  }

  lemma XorUnit(x: Symbol, y: Symbol)
    ensures Xor(x, ZERO) == x && Xor(ZERO, x) == x && Xor(x, x) == ZERO && Xor(x, y) == Xor(y, x)
  {
  }

  lemma XorCancels(x: Symbol, y: Symbol)
    ensures Xor(x, Xor(x, y)) == y
    ensures Xor(x, y) == ZERO ==> x == y
  {
  }

  lemma BoolSwap(x: bool, y: bool, z: bool, w: bool)
    ensures ((x != y) != (z != w)) == ((x != z) != (y != w))
  {
  }

  lemma XorSwap(x: Symbol, y: Symbol, z: Symbol, w: Symbol)
    ensures Xor(Xor(x, y), Xor(z, w)) == Xor(Xor(x, z), Xor(y, w))
  {
    BoolSwap(x.b4, y.b4, z.b4, w.b4);
    BoolSwap(x.b3, y.b3, z.b3, w.b3);
    BoolSwap(x.b2, y.b2, z.b2, w.b2);
    BoolSwap(x.b1, y.b1, z.b1, w.b1);
    BoolSwap(x.b0, y.b0, z.b0, w.b0);
  }

  lemma RoundTrip(x: Symbol)
    ensures Of(ToNat(x)) == x
  {
  }

  // ---------------------------------------------------------------- the product by its definition

  /** Multiplication by a: shift left, and subtract a^5 + a^3 + 1 (fmod, 41) if bit 5 is set. */
  function Dbl(x: Symbol): Symbol {
    Symbol(x.b3, x.b2 != x.b4, x.b1, x.b0, x.b4)
  }

  function Times(x: Symbol, k: nat): Symbol {
    if k == 0 then x else Dbl(Times(x, k - 1))
  }

  predicate Bit(y: Symbol, k: nat) {
    if k == 0 then y.b0 else if k == 1 then y.b1 else if k == 2 then y.b2 else if k == 3 then y.b3 else y.b4
  }

  /** The sum of x * a^i over the bits i < n of y. */
  function Partial(x: Symbol, y: Symbol, n: nat): Symbol {
    if n == 0 then ZERO else Xor(Partial(x, y, n - 1), Pick(Bit(y, n - 1), Times(x, n - 1)))
  }

  /** Bits of a symbol. */
  const BITS: nat := 5

  function Product(x: Symbol, y: Symbol): Symbol {
    Partial(x, y, BITS)
  }

  lemma DblLinear(x: Symbol, y: Symbol)
    ensures Dbl(Xor(x, y)) == Xor(Dbl(x), Dbl(y))
  {
  }

  lemma DblPick(b: bool, x: Symbol)
    ensures Dbl(Pick(b, x)) == Pick(b, Dbl(x))
  {
  }

  lemma PickLinear(a: bool, b: bool, x: Symbol)
    ensures Pick(a != b, x) == Xor(Pick(a, x), Pick(b, x))
  {
  }

  lemma BitLinear(y: Symbol, z: Symbol, k: nat)
    ensures Bit(Xor(y, z), k) == (Bit(y, k) != Bit(z, k))
  {
  }

  lemma {:induction false} PartialLinear(x: Symbol, y: Symbol, z: Symbol, n: nat)
    ensures Partial(x, Xor(y, z), n) == Xor(Partial(x, y, n), Partial(x, z, n))
  {
    if n == 0 {
      XorUnit(ZERO, ZERO);
    } else {
      PartialLinear(x, y, z, n - 1);
      BitLinear(y, z, n - 1);
      var a, b, t := Bit(y, n - 1), Bit(z, n - 1), Times(x, n - 1);
      PickLinear(a, b, t);
      XorSwap(Partial(x, y, n - 1), Partial(x, z, n - 1), Pick(a, t), Pick(b, t));
    }
  }

  lemma ProductLinear(x: Symbol, y: Symbol, z: Symbol)
    ensures Product(x, Xor(y, z)) == Xor(Product(x, y), Product(x, z))
  {
    PartialLinear(x, y, z, BITS);
  }

  lemma {:induction false} TimesDbl(x: Symbol, k: nat)
    ensures Times(Dbl(x), k) == Dbl(Times(x, k))
  {
    if k > 0 {
      TimesDbl(x, k - 1);
    }
  }

  lemma {:induction false} PartialDbl(x: Symbol, y: Symbol, n: nat)
    ensures Partial(Dbl(x), y, n) == Dbl(Partial(x, y, n))
  {
    if n > 0 {
      PartialDbl(x, y, n - 1);
      TimesDbl(x, n - 1);
      DblPick(Bit(y, n - 1), Times(x, n - 1));
      DblLinear(Partial(x, y, n - 1), Pick(Bit(y, n - 1), Times(x, n - 1)));
    }
  }

  lemma {:induction false} TimesZero(k: nat)
    ensures Times(ZERO, k) == ZERO
  {
    if k > 0 {
      TimesZero(k - 1);
    }
  }

  lemma {:induction false} PartialZero(x: Symbol, n: nat)
    ensures Partial(x, ZERO, n) == ZERO && Partial(ZERO, x, n) == ZERO
  {
    if n > 0 {
      PartialZero(x, n - 1);
      TimesZero(n - 1);
      XorUnit(ZERO, ZERO);
    }
  }

  /** The first n bits of y. */
  function LowBits(y: Symbol, n: nat): Symbol {
    Symbol(y.b4 && n > 4, y.b3 && n > 3, y.b2 && n > 2, y.b1 && n > 1, y.b0 && n > 0)
  }

  lemma TimesOne()
    ensures Times(ONE, 0) == Of(1) && Times(ONE, 1) == Of(2) && Times(ONE, 2) == Of(4) && Times(ONE, 3) == Of(8) && Times(ONE, 4) == Of(16)
  {
    assert Times(ONE, 1) == Dbl(Times(ONE, 0));
    assert Times(ONE, 2) == Dbl(Times(ONE, 1));
    assert Times(ONE, 3) == Dbl(Times(ONE, 2));
    assert Times(ONE, 4) == Dbl(Times(ONE, 3));
  }

  lemma {:induction false} PartialOne(y: Symbol, n: nat)
    requires n <= 5
    ensures Partial(ONE, y, n) == LowBits(y, n)
  {
    if n > 0 {
      PartialOne(y, n - 1);
      TimesOne();
    }
  }

  // ---------------------------------------------------------------- powers of a

  /** a^i. */
  function Alpha(i: nat): Symbol {
    Times(ONE, i)
  }

  /** Doubling the elements, written as numbers. */
  lemma Doubles()
    ensures Dbl(Of(1)) == Of(2)
    ensures Dbl(Of(2)) == Of(4)
    ensures Dbl(Of(4)) == Of(8)
    ensures Dbl(Of(8)) == Of(16)
    ensures Dbl(Of(16)) == Of(9)
    ensures Dbl(Of(9)) == Of(18)
    ensures Dbl(Of(18)) == Of(13)
    ensures Dbl(Of(13)) == Of(26)
    ensures Dbl(Of(26)) == Of(29)
    ensures Dbl(Of(29)) == Of(19)
    ensures Dbl(Of(19)) == Of(15)
    ensures Dbl(Of(15)) == Of(30)
    ensures Dbl(Of(30)) == Of(21)
    ensures Dbl(Of(21)) == Of(3)
    ensures Dbl(Of(3)) == Of(6)
    ensures Dbl(Of(6)) == Of(12)
    ensures Dbl(Of(12)) == Of(24)
    ensures Dbl(Of(24)) == Of(25)
    ensures Dbl(Of(25)) == Of(27)
    ensures Dbl(Of(27)) == Of(31)
    ensures Dbl(Of(31)) == Of(23)
    ensures Dbl(Of(23)) == Of(7)
    ensures Dbl(Of(7)) == Of(14)
    ensures Dbl(Of(14)) == Of(28)
    ensures Dbl(Of(28)) == Of(17)
    ensures Dbl(Of(17)) == Of(11)
    ensures Dbl(Of(11)) == Of(22)
    ensures Dbl(Of(22)) == Of(5)
    ensures Dbl(Of(5)) == Of(10)
    ensures Dbl(Of(10)) == Of(20)
    ensures Dbl(Of(20)) == Of(1)
  {
  }

  /** The powers of a, as GenerateGF32Tables computes them; they repeat after 31. */
  lemma Powers()
    ensures Alpha(0) == Of(1)
    ensures Alpha(1) == Of(2)
    ensures Alpha(2) == Of(4)
    ensures Alpha(3) == Of(8)
    ensures Alpha(4) == Of(16)
    ensures Alpha(5) == Of(9)
    ensures Alpha(6) == Of(18)
    ensures Alpha(7) == Of(13)
    ensures Alpha(8) == Of(26)
    ensures Alpha(9) == Of(29)
    ensures Alpha(10) == Of(19)
    ensures Alpha(11) == Of(15)
    ensures Alpha(12) == Of(30)
    ensures Alpha(13) == Of(21)
    ensures Alpha(14) == Of(3)
    ensures Alpha(15) == Of(6)
    ensures Alpha(16) == Of(12)
    ensures Alpha(17) == Of(24)
    ensures Alpha(18) == Of(25)
    ensures Alpha(19) == Of(27)
    ensures Alpha(20) == Of(31)
    ensures Alpha(21) == Of(23)
    ensures Alpha(22) == Of(7)
    ensures Alpha(23) == Of(14)
    ensures Alpha(24) == Of(28)
    ensures Alpha(25) == Of(17)
    ensures Alpha(26) == Of(11)
    ensures Alpha(27) == Of(22)
    ensures Alpha(28) == Of(5)
    ensures Alpha(29) == Of(10)
    ensures Alpha(30) == Of(20)
    ensures Alpha(31) == ONE
  {
    Doubles();
    assert Alpha(1) == Dbl(Alpha(0));
    assert Alpha(2) == Dbl(Alpha(1));
    assert Alpha(3) == Dbl(Alpha(2));
    assert Alpha(4) == Dbl(Alpha(3));
    assert Alpha(5) == Dbl(Alpha(4));
    assert Alpha(6) == Dbl(Alpha(5));
    assert Alpha(7) == Dbl(Alpha(6));
    assert Alpha(8) == Dbl(Alpha(7));
    assert Alpha(9) == Dbl(Alpha(8));
    assert Alpha(10) == Dbl(Alpha(9));
    assert Alpha(11) == Dbl(Alpha(10));
    assert Alpha(12) == Dbl(Alpha(11));
    assert Alpha(13) == Dbl(Alpha(12));
    assert Alpha(14) == Dbl(Alpha(13));
    assert Alpha(15) == Dbl(Alpha(14));
    assert Alpha(16) == Dbl(Alpha(15));
    assert Alpha(17) == Dbl(Alpha(16));
    assert Alpha(18) == Dbl(Alpha(17));
    assert Alpha(19) == Dbl(Alpha(18));
    assert Alpha(20) == Dbl(Alpha(19));
    assert Alpha(21) == Dbl(Alpha(20));
    assert Alpha(22) == Dbl(Alpha(21));
    assert Alpha(23) == Dbl(Alpha(22));
    assert Alpha(24) == Dbl(Alpha(23));
    assert Alpha(25) == Dbl(Alpha(24));
    assert Alpha(26) == Dbl(Alpha(25));
    assert Alpha(27) == Dbl(Alpha(26));
    assert Alpha(28) == Dbl(Alpha(27));
    assert Alpha(29) == Dbl(Alpha(28));
    assert Alpha(30) == Dbl(Alpha(29));
    assert Alpha(31) == Dbl(Alpha(30));
  }

  /** Discrete logarithms, by number; -1 for zero. */
  function LogNat(n: nat): int {
    match n
    case 1 => 0
    case 2 => 1
    case 3 => 14
    case 4 => 2
    case 5 => 28
    case 6 => 15
    case 7 => 22
    case 8 => 3
    case 9 => 5
    case 10 => 29
    case 11 => 26
    case 12 => 16
    case 13 => 7
    case 14 => 23
    case 15 => 11
    case 16 => 4
    case 17 => 25
    case 18 => 6
    case 19 => 10
    case 20 => 30
    case 21 => 13
    case 22 => 27
    case 23 => 21
    case 24 => 17
    case 25 => 18
    case 26 => 8
    case 27 => 19
    case 28 => 24
    case 29 => 9
    case 30 => 12
    case 31 => 20
    case _ => -1
  }

  function LogOf(x: Symbol): int {
    LogNat(ToNat(x))
  }

  lemma NatRoundTrip(n: nat)
    requires n < 32
    ensures ToNat(Of(n)) == n
  {
  }

  /** Every number from 1 to 31 is the power that its logarithm names. */
  lemma LogsInvert(n: nat)
    requires 0 < n < 32
    ensures 0 <= LogNat(n) < 31 && Alpha(LogNat(n)) == Of(n)
  {
    Powers();
  }

  /** Every nonzero element is the power that its logarithm names. */
  lemma PowerOfLog(x: Symbol)
    requires x != ZERO
    ensures 0 <= LogOf(x) < 31 && Alpha(LogOf(x)) == x
  {
    RoundTrip(x);
    assert ToNat(x) != 0;
    LogsInvert(ToNat(x));
  }

  /** The powers, by number. */
  function ExpNat(i: nat): nat {
    match i
    case 0 => 1
    case 1 => 2
    case 2 => 4
    case 3 => 8
    case 4 => 16
    case 5 => 9
    case 6 => 18
    case 7 => 13
    case 8 => 26
    case 9 => 29
    case 10 => 19
    case 11 => 15
    case 12 => 30
    case 13 => 21
    case 14 => 3
    case 15 => 6
    case 16 => 12
    case 17 => 24
    case 18 => 25
    case 19 => 27
    case 20 => 31
    case 21 => 23
    case 22 => 7
    case 23 => 14
    case 24 => 28
    case 25 => 17
    case 26 => 11
    case 27 => 22
    case 28 => 5
    case 29 => 10
    case 30 => 20
    case _ => 0
  }

  lemma ExpIsPower(i: nat)
    requires i < 31
    ensures Alpha(i) == Of(ExpNat(i))
  {
    ExpRange(i);
    LogInverts(i);
    LogsInvert(ExpNat(i));
  }

  lemma ExpRange(i: nat)
    requires i < 31
    ensures 0 < ExpNat(i) < 32
  {
  }

  lemma LogInverts(i: nat)
    requires i < 31
    ensures LogNat(ExpNat(i)) == i
  {
  }

  /** The logarithm of a power below 31 is its exponent. */
  lemma LogOfPower(i: nat)
    requires i < 31
    ensures Alpha(i) != ZERO && LogOf(Alpha(i)) == i
  {
    ExpIsPower(i);
    ExpRange(i);
    NatRoundTrip(ExpNat(i));
    LogInverts(i);
    assert ToNat(ZERO) == 0;
  }

  lemma {:induction false} Periodic(i: nat)
    ensures Alpha(i + 31) == Alpha(i)
  {
    if i == 0 {
      Powers();
    } else {
      Periodic(i - 1);
      assert Alpha(i + 31) == Dbl(Alpha(i + 30)) && Alpha(i) == Dbl(Alpha(i - 1));
    }
  }

  lemma {:induction false} PowerMod(i: nat)
    ensures Alpha(i % 31) == Alpha(i)
  {
    if i >= 31 {
      PowerMod(i - 31);
      Periodic(i - 31);
    }
  }

  lemma {:induction false} PowerTimes(x: Symbol, i: nat)
    ensures Product(Alpha(i), x) == Times(x, i)
  {
    if i == 0 {
      PartialOne(x, BITS);
    } else {
      PowerTimes(x, i - 1);
      assert Alpha(i) == Dbl(Alpha(i - 1));
      PartialDbl(Alpha(i - 1), x, BITS);
    }
  }

  lemma {:induction false} TimesPower(i: nat, j: nat)
    ensures Times(Alpha(j), i) == Alpha(i + j)
  {
    if i > 0 {
      TimesPower(i - 1, j);
    }
  }

  // ---------------------------------------------------------------- the tables

  /** GF32_EXP and GF32_LOG. */
  datatype Tables = Tables(exp: seq<Symbol>, log: seq<int>)

  ghost predicate AreTables(t: Tables) {
    && |t.exp| == 31 && |t.log| == 32
    && (forall i :: 0 <= i < 31 ==> t.exp[i] == Alpha(i))
    && (forall x: Symbol :: x != ZERO ==> t.log[ToNat(x)] == LogOf(x))
  }

  /** GenerateGF32Tables. */
  method GenerateGF32Tables() returns (t: Tables)
    ensures AreTables(t)
  {
    var exp, log := seq(31, _ => ZERO), seq(32, _ => 0);
    exp := exp[0 := ONE];
    log := log[0 := -1];
    log := log[1 := 0];
    var v := ONE;
    LogOfPower(0);
    for i := 1 to 31
      invariant |exp| == 31 && |log| == 32 && v == Alpha(i - 1)
      invariant forall k :: 0 <= k < i ==> exp[k] == Alpha(k)
      invariant forall x: Symbol :: x != ZERO && LogOf(x) < i ==> log[ToNat(x)] == LogOf(x)
    {
      v := Dbl(v);
      LogOfPower(i);
      exp := exp[i := v];
      StoreLog(log, i);
      log := log[ToNat(v) := i];
    }
    forall x: Symbol | x != ZERO ensures log[ToNat(x)] == LogOf(x) {
      PowerOfLog(x);
    }
    t := Tables(exp, log);
  }

  lemma StoreLog(log: seq<int>, i: nat)
    requires |log| == 32 && i < 31 && forall x: Symbol :: x != ZERO && LogOf(x) < i ==> log[ToNat(x)] == LogOf(x)
    ensures forall x: Symbol :: x != ZERO && LogOf(x) < i + 1 ==> log[ToNat(Alpha(i)) := i][ToNat(x)] == LogOf(x)
  {
    LogOfPower(i);
    forall x: Symbol | x != ZERO && LogOf(x) < i + 1 ensures log[ToNat(Alpha(i)) := i][ToNat(x)] == LogOf(x) {
      PowerOfLog(x);
      RoundTrip(x);
      RoundTrip(Alpha(i));
    }
  }

  /** gf32_mul. */
  function Mul(t: Tables, x: Symbol, y: Symbol): Symbol
    requires AreTables(t)
  {
    if x == ZERO || y == ZERO then ZERO
    else
      PowerOfLog(x);
      PowerOfLog(y);
      t.exp[(t.log[ToNat(x)] + t.log[ToNat(y)]) % 31]
  }

  /** The table product is the product; it has no zero divisors. */
  lemma MulIsProduct(t: Tables, x: Symbol, y: Symbol)
    requires AreTables(t)
    ensures Mul(t, x, y) == Product(x, y)
    ensures Mul(t, x, y) == ZERO <==> x == ZERO || y == ZERO
  {
    if x == ZERO || y == ZERO {
      PartialZero(x, BITS);
      PartialZero(y, BITS);
    } else {
      PowerOfLog(x);
      PowerOfLog(y);
      var i, j := LogOf(x), LogOf(y);
      PowerMod(i + j);
      PowerTimes(y, i);
      TimesPower(i, j);
      LogOfPower((i + j) % 31);
    }
  }

  /** Multiplication distributes over addition. */
  lemma MulLinear(t: Tables, x: Symbol, y: Symbol, z: Symbol)
    requires AreTables(t)
    ensures Mul(t, x, Xor(y, z)) == Xor(Mul(t, x, y), Mul(t, x, z))
  {
    MulIsProduct(t, x, y);
    MulIsProduct(t, x, z);
    MulIsProduct(t, x, Xor(y, z));
    ProductLinear(x, y, z);
  }
}
