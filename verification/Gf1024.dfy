/**
 The extension field GF(1024) over GF(32) that the Bech32 generator is built on
 (src/bech32.cpp:143-160).

 Elements are c + d * e with e^2 = {9}e + {23}. Only multiplication by powers of e and by elements
 of GF(32) is needed; both are linear. The element e has order 1023: no smaller power of it leaves
 a nonzero element in place.
 */
module Gf1024 {
  import opened Gf32

  // ---------------------------------------------------------------- GF(32) as a field

  lemma ProductPower(i: nat, j: nat)
    ensures Product(Alpha(i), Alpha(j)) == Alpha(i + j)
  {
    PowerTimes(Alpha(j), i);
    TimesPower(i, j);
  }

  lemma ProductZero(x: Symbol)
    ensures Product(x, ZERO) == ZERO && Product(ZERO, x) == ZERO
  {
    PartialZero(x, BITS);
  }

  /** Every nonzero element is a power of a, and no power of a is zero. */
  lemma SomePower(x: Symbol) returns (i: nat)
    requires x != ZERO
    ensures x == Alpha(i)
  {
    PowerOfLog(x);
    i := LogOf(x);
  }

  lemma PowerNotZero(i: nat)
    ensures Alpha(i) != ZERO
  {
    PowerMod(i);
    LogOfPower(i % 31);
  }

  lemma ProductCommutes(x: Symbol, y: Symbol)
    ensures Product(x, y) == Product(y, x)
  {
    if x == ZERO {
      ProductZero(y);
    } else if y == ZERO {
      ProductZero(x);
    } else {
      var i := SomePower(x);
      var j := SomePower(y);
      ProductPower(i, j);
      ProductPower(j, i);
    }
  }

  lemma ProductAssociates(x: Symbol, y: Symbol, z: Symbol)
    ensures Product(Product(x, y), z) == Product(x, Product(y, z))
  {
    if x == ZERO {
      ProductZero(y);
      ProductZero(z);
      ProductZero(Product(y, z));
    } else if y == ZERO {
      ProductZero(x);
      ProductZero(z);
    } else if z == ZERO {
      ProductZero(x);
      ProductZero(y);
      ProductZero(Product(x, y));
    } else {
      var i := SomePower(x);
      var j := SomePower(y);
      var k := SomePower(z);
      LeftFirst(x, y, z, i, j, k);
      RightFirst(x, y, z, i, j, k);
    }
  }

  lemma PowersMultiply(x: Symbol, y: Symbol, i: nat, j: nat)
    requires x == Alpha(i) && y == Alpha(j)
    ensures Product(x, y) == Alpha(i + j)
  {
    ProductPower(i, j);
  }

  lemma LeftFirst(x: Symbol, y: Symbol, z: Symbol, i: nat, j: nat, k: nat)
    requires x == Alpha(i) && y == Alpha(j) && z == Alpha(k)
    ensures Product(Product(x, y), z) == Alpha(i + j + k)
  {
    PowersMultiply(x, y, i, j);
    PowersMultiply(Product(x, y), z, i + j, k);
  }

  lemma RightFirst(x: Symbol, y: Symbol, z: Symbol, i: nat, j: nat, k: nat)
    requires x == Alpha(i) && y == Alpha(j) && z == Alpha(k)
    ensures Product(x, Product(y, z)) == Alpha(i + j + k)
  {
    PowersMultiply(y, z, j, k);
    PowersMultiply(x, Product(y, z), i, j + k);
  }

  lemma ProductOne(x: Symbol)
    ensures Product(ONE, x) == x
  {
    PartialOne(x, BITS);
  }

  lemma ProductLeft(x: Symbol, y: Symbol, z: Symbol)
    ensures Product(Xor(x, y), z) == Xor(Product(x, z), Product(y, z))
  {
    ProductLinear(z, x, y);
    ProductCommutes(z, x);
    ProductCommutes(z, y);
    ProductCommutes(z, Xor(x, y));
  }

  lemma NoZeroDivisors(x: Symbol, y: Symbol)
    requires Product(x, y) == ZERO && x != ZERO
    ensures y == ZERO
  {
    if y != ZERO {
      var i := SomePower(x);
      var j := SomePower(y);
      ProductOfPowers(i, j);
    }
  }

  lemma ProductOfPowers(i: nat, j: nat)
    ensures Product(Alpha(i), Alpha(j)) != ZERO
  {
    ProductPower(i, j);
    PowerNotZero(i + j);
  }

  // ---------------------------------------------------------------- calculating with logarithms

  /** The element with this logarithm; 31 stands for zero. */
  function Elt(i: nat): Symbol {
    if i == 31 then ZERO else Alpha(i)
  }

  /** 1 + a^d = a^Zech(d). */
  function Zech(d: nat): nat {
    match d
    case 1 => 14
    case 2 => 28
    case 3 => 5
    case 4 => 25
    case 5 => 3
    case 6 => 10
    case 7 => 16
    case 8 => 19
    case 9 => 24
    case 10 => 6
    case 11 => 23
    case 12 => 20
    case 13 => 30
    case 14 => 1
    case 15 => 22
    case 16 => 7
    case 17 => 18
    case 18 => 17
    case 19 => 8
    case 20 => 12
    case 21 => 27
    case 22 => 15
    case 23 => 11
    case 24 => 9
    case 25 => 4
    case 26 => 29
    case 27 => 21
    case 28 => 2
    case 29 => 26
    case 30 => 13
    case _ => 31
  }

  function LogMul(i: nat, j: nat): nat {
    if i == 31 || j == 31 then 31 else if i + j < 31 then i + j else i + j - 31
  }

  function LogAdd(i: nat, j: nat): nat {
    if i == 31 then j
    else if j == 31 then i
    else if i == j then 31
    else if i < j then LogMul(i, Zech(j - i))
    else LogMul(j, Zech(i - j))
  }

  lemma LogMulIs(i: nat, j: nat)
    requires i <= 31 && j <= 31
    ensures LogMul(i, j) <= 31 && Product(Elt(i), Elt(j)) == Elt(LogMul(i, j))
  {
    if i == 31 {
      ProductZero(Elt(j));
    } else if j == 31 {
      ProductZero(Elt(i));
    } else {
      ProductPower(i, j);
      if i + j >= 31 {
        Periodic(i + j - 31);
      }
    }
  }

  lemma Zech1(d: nat)
    requires 1 <= d < 6
    ensures Xor(Of(1), Of(ExpNat(d))) == Of(ExpNat(Zech(d)))
  {
    match d
    case 1 => assert Xor(Of(1), Of(2)) == Of(3);
    case 2 => assert Xor(Of(1), Of(4)) == Of(5);
    case 3 => assert Xor(Of(1), Of(8)) == Of(9);
    case 4 => assert Xor(Of(1), Of(16)) == Of(17);
    case _ => assert Xor(Of(1), Of(9)) == Of(8);
  }

  lemma Zech6(d: nat)
    requires 6 <= d < 11
    ensures Xor(Of(1), Of(ExpNat(d))) == Of(ExpNat(Zech(d)))
  {
    match d
    case 6 => assert Xor(Of(1), Of(18)) == Of(19);
    case 7 => assert Xor(Of(1), Of(13)) == Of(12);
    case 8 => assert Xor(Of(1), Of(26)) == Of(27);
    case 9 => assert Xor(Of(1), Of(29)) == Of(28);
    case _ => assert Xor(Of(1), Of(19)) == Of(18);
  }

  lemma Zech11(d: nat)
    requires 11 <= d < 16
    ensures Xor(Of(1), Of(ExpNat(d))) == Of(ExpNat(Zech(d)))
  {
    match d
    case 11 => assert Xor(Of(1), Of(15)) == Of(14);
    case 12 => assert Xor(Of(1), Of(30)) == Of(31);
    case 13 => assert Xor(Of(1), Of(21)) == Of(20);
    case 14 => assert Xor(Of(1), Of(3)) == Of(2);
    case _ => assert Xor(Of(1), Of(6)) == Of(7);
  }

  lemma Zech16(d: nat)
    requires 16 <= d < 21
    ensures Xor(Of(1), Of(ExpNat(d))) == Of(ExpNat(Zech(d)))
  {
    match d
    case 16 => assert Xor(Of(1), Of(12)) == Of(13);
    case 17 => assert Xor(Of(1), Of(24)) == Of(25);
    case 18 => assert Xor(Of(1), Of(25)) == Of(24);
    case 19 => assert Xor(Of(1), Of(27)) == Of(26);
    case _ => assert Xor(Of(1), Of(31)) == Of(30);
  }

  lemma Zech21(d: nat)
    requires 21 <= d < 26
    ensures Xor(Of(1), Of(ExpNat(d))) == Of(ExpNat(Zech(d)))
  {
    match d
    case 21 => assert Xor(Of(1), Of(23)) == Of(22);
    case 22 => assert Xor(Of(1), Of(7)) == Of(6);
    case 23 => assert Xor(Of(1), Of(14)) == Of(15);
    case 24 => assert Xor(Of(1), Of(28)) == Of(29);
    case _ => assert Xor(Of(1), Of(17)) == Of(16);
  }

  lemma Zech26(d: nat)
    requires 26 <= d < 31
    ensures Xor(Of(1), Of(ExpNat(d))) == Of(ExpNat(Zech(d)))
  {
    match d
    case 26 => assert Xor(Of(1), Of(11)) == Of(10);
    case 27 => assert Xor(Of(1), Of(22)) == Of(23);
    case 28 => assert Xor(Of(1), Of(5)) == Of(4);
    case 29 => assert Xor(Of(1), Of(10)) == Of(11);
    case _ => assert Xor(Of(1), Of(20)) == Of(21);
  }

  lemma ZechNumbers(d: nat)
    requires 0 < d < 31
    ensures Xor(Of(1), Of(ExpNat(d))) == Of(ExpNat(Zech(d)))
  {
    if d < 6 {
      Zech1(d);
    } else if d < 11 {
      Zech6(d);
    } else if d < 16 {
      Zech11(d);
    } else if d < 21 {
      Zech16(d);
    } else if d < 26 {
      Zech21(d);
    } else {
      Zech26(d);
    }
  }

  lemma ZechIs(d: nat)
    requires 0 < d < 31
    ensures Zech(d) < 31 && Xor(ONE, Alpha(d)) == Alpha(Zech(d))
  {
    ZechRange(d);
    ExpIsPower(d);
    ExpIsPower(Zech(d));
    OneIs();
    ZechNumbers(d);
  }

  lemma OneIs()
    ensures ONE == Of(1)
  {
  }

  lemma ZechRange(d: nat)
    requires 0 < d < 31
    ensures Zech(d) < 31
  {
  }

  lemma LaterPower(i: nat, j: nat)
    requires i < j < 31
    ensures LogMul(i, Zech(j - i)) < 31 && Xor(Alpha(i), Alpha(j)) == Alpha(LogMul(i, Zech(j - i)))
  {
    ZechIs(j - i);
    SumOfPowers(i, j - i, Zech(j - i));
  }

  lemma SumOfPowers(i: nat, d: nat, z: nat)
    requires i < 31 && z < 31 && Xor(ONE, Alpha(d)) == Alpha(z)
    ensures LogMul(i, z) < 31 && Xor(Alpha(i), Alpha(i + d)) == Alpha(LogMul(i, z))
  {
    FactorOut(i, d, Alpha(z));
    LogMulIs(i, z);
  }

  lemma FactorOut(i: nat, d: nat, x: Symbol)
    requires Xor(ONE, Alpha(d)) == x
    ensures Xor(Alpha(i), Alpha(i + d)) == Product(Alpha(i), x)
  {
    ProductPower(i, d);
    ProductLinear(Alpha(i), ONE, Alpha(d));
    ProductOne(Alpha(i));
    ProductCommutes(Alpha(i), ONE);
  }

  lemma LogAddIs(i: nat, j: nat)
    requires i <= 31 && j <= 31
    ensures LogAdd(i, j) <= 31 && Xor(Elt(i), Elt(j)) == Elt(LogAdd(i, j))
  {
    if i == 31 || j == 31 || i == j {
      XorUnit(Elt(i), Elt(j));
      XorUnit(Elt(j), Elt(i));
    } else if i < j {
      LaterPower(i, j);
    } else {
      LaterPower(j, i);
      XorUnit(Alpha(i), Alpha(j));
    }
  }

  lemma EltZero(i: nat)
    requires i <= 31
    ensures Elt(i) == ZERO <==> i == 31
  {
    if i < 31 {
      PowerNotZero(i);
    }
  }
}
