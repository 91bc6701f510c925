/**
 The powers of e in GF(1024) (src/bech32.cpp:143-160): e has order 1023, and polynomials over GF(32)
 are evaluated at its powers with the help of logarithms.
 */
module PowersOfE {
  import opened Gf32
  import opened Gf1024
  import opened Checksums
  import opened BchBound

  const PERIOD: nat := 1023

  // ---------------------------------------------------------------- GF(1024)

  /** lo + hi * e. */
  datatype Pair = Pair(lo: Symbol, hi: Symbol)

  function AddPairs(x: Pair, y: Pair): Pair {
    Pair(Xor(x.lo, y.lo), Xor(x.hi, y.hi))
  }

  function ScalePair(c: Symbol, x: Pair): Pair {
    Pair(Product(c, x.lo), Product(c, x.hi))
  }

  /** Multiplication by e, with e^2 = {9}e + {23}; {9} is a^5 and {23} is a^21. */
  function TurnPair(x: Pair): Pair {
    Pair(Product(Elt(21), x.hi), Xor(x.lo, Product(Elt(5), x.hi)))
  }

  const E: Space<Pair> := Space(Pair(ZERO, ZERO), Pair(ONE, ZERO), (x, y) => AddPairs(x, y), (c, x) => ScalePair(c, x), x => TurnPair(x))

  lemma XorAssociates(x: Symbol, y: Symbol, z: Symbol)
    ensures Xor(Xor(x, y), z) == Xor(x, Xor(y, z))
  {
    XorUnit(y, z);
    XorSwap(x, y, ZERO, z);
    XorUnit(z, x);
    XorUnit(x, z);
  }

  lemma PairGroup(x: Pair, y: Pair, z: Pair)
    ensures GroupLaws(E, x, y, z)
  {
    XorUnit(x.lo, y.lo);
    XorUnit(x.hi, y.hi);
    XorAssociates(x.lo, y.lo, z.lo);
    XorAssociates(x.hi, y.hi, z.hi);
  }

  lemma PairScale(c: Symbol, d: Symbol, x: Pair)
    ensures ScaleLaws(E, c, d, x)
  {
    ProductLeft(c, d, x.lo);
    ProductLeft(c, d, x.hi);
    ProductAssociates(c, d, x.lo);
    ProductAssociates(c, d, x.hi);
  }

  lemma TurnAdds(x: Pair, y: Pair)
    ensures TurnPair(AddPairs(x, y)) == AddPairs(TurnPair(x), TurnPair(y))
  {
    ProductLinear(Elt(21), x.hi, y.hi);
    ProductLinear(Elt(5), x.hi, y.hi);
    XorSwap(x.lo, y.lo, Product(Elt(5), x.hi), Product(Elt(5), y.hi));
  }

  lemma ProductSwaps(a: Symbol, c: Symbol, x: Symbol)
    ensures Product(a, Product(c, x)) == Product(c, Product(a, x))
  {
    ProductAssociates(a, c, x);
    ProductCommutes(a, c);
    ProductAssociates(c, a, x);
  }

  lemma TurnScales(c: Symbol, x: Pair)
    ensures TurnPair(ScalePair(c, x)) == ScalePair(c, TurnPair(x))
  {
    ProductSwaps(Elt(21), c, x.hi);
    ProductSwaps(Elt(5), c, x.hi);
    ProductLinear(c, x.lo, Product(Elt(5), x.hi));
  }

  lemma ScaleAdds(c: Symbol, x: Pair, y: Pair)
    ensures ScalePair(c, AddPairs(x, y)) == AddPairs(ScalePair(c, x), ScalePair(c, y))
  {
    ProductLinear(c, x.lo, y.lo);
    ProductLinear(c, x.hi, y.hi);
  }

  lemma ScaleUnits(c: Symbol, x: Pair)
    ensures ScalePair(ONE, x) == x && ScalePair(ZERO, x) == Pair(ZERO, ZERO)
    ensures ScalePair(c, x) == Pair(ZERO, ZERO) ==> c == ZERO || x == Pair(ZERO, ZERO)
  {
    ProductOne(x.lo);
    ProductOne(x.hi);
    ProductZero(x.lo);
    ProductZero(x.hi);
    if ScalePair(c, x) == Pair(ZERO, ZERO) && c != ZERO {
      NoZeroDivisors(c, x.lo);
      NoZeroDivisors(c, x.hi);
    }
  }

  lemma PairLinear(c: Symbol, x: Pair, y: Pair)
    ensures LinearLaws(E, c, x, y)
  {
    TurnAdds(x, y);
    TurnScales(c, x);
    ScaleAdds(c, x, y);
    ScaleUnits(c, x);
  }

  lemma FieldLawful()
    ensures Lawful(E) && E.unit != E.zero
  {
    forall x: Pair, y: Pair, z: Pair ensures GroupLaws(E, x, y, z) { PairGroup(x, y, z); }
    forall c: Symbol, x: Pair, y: Pair ensures LinearLaws(E, c, x, y) { PairLinear(c, x, y); }
    forall c: Symbol, d: Symbol, x: Pair ensures ScaleLaws(E, c, d, x) { PairScale(c, d, x); }
  }

  /** e^2 = {9}e + {23}, as a law about the map. */
  ghost predicate SquareLaw<V(!new)>(sp: Space<V>, x: V) {
    sp.turn(sp.turn(x)) == Lin(sp, Elt(21), Elt(5), x)
  }

  ghost predicate Quadratic<V(!new)>(sp: Space<V>) {
    Lawful(sp) && forall x: V {:trigger SquareLaw(sp, x)} :: SquareLaw(sp, x)
  }

  lemma FieldQuadratic()
    ensures Quadratic(E)
  {
    FieldLawful();
    forall x: Pair ensures SquareLaw(E, x) { PairSquare(x); }
  }

  lemma PairSquare(x: Pair)
    ensures TurnPair(TurnPair(x)) == AddPairs(ScalePair(Elt(21), x), ScalePair(Elt(5), TurnPair(x)))
  {
    var a, b, p, q := Elt(21), Elt(5), Product(Elt(5), x.hi), Product(Elt(21), x.hi);
    ProductLinear(a, x.lo, p);
    ProductLinear(b, x.lo, p);
    ProductSwaps(a, b, x.hi);
  }

  // ---------------------------------------------------------------- elements as a + b * e

  /** (a + b * e) * x. */
  ghost function Lin<V(!new)>(sp: Space<V>, a: Symbol, b: Symbol, x: V): V {
    sp.add(sp.scale(a, x), sp.scale(b, sp.turn(x)))
  }

  lemma LinAdds<V(!new)>(sp: Space<V>, a: Symbol, b: Symbol, c: Symbol, d: Symbol, x: V)
    requires Lawful(sp)
    ensures sp.add(Lin(sp, a, b, x), Lin(sp, c, d, x)) == Lin(sp, Xor(a, c), Xor(b, d), x)
  {
    assert ScaleLaws(sp, a, c, x) && ScaleLaws(sp, b, d, sp.turn(x));
    BchBound.Regroup(sp, sp.scale(a, x), sp.scale(b, sp.turn(x)), sp.scale(c, x), sp.scale(d, sp.turn(x)));
  }

  lemma LinScales<V(!new)>(sp: Space<V>, c: Symbol, a: Symbol, b: Symbol, x: V)
    requires Lawful(sp)
    ensures sp.scale(c, Lin(sp, a, b, x)) == Lin(sp, Product(c, a), Product(c, b), x)
  {
    assert LinearLaws(sp, c, sp.scale(a, x), sp.scale(b, sp.turn(x)));
    assert ScaleLaws(sp, c, a, x) && ScaleLaws(sp, c, b, sp.turn(x));
  }

  lemma LinTurns<V(!new)>(sp: Space<V>, a: Symbol, b: Symbol, x: V)
    requires Quadratic(sp)
    ensures sp.turn(Lin(sp, a, b, x)) == Lin(sp, Product(b, Elt(21)), Xor(a, Product(b, Elt(5))), x)
  {
    var y := sp.turn(x);
    assert LinearLaws(sp, a, x, x) && LinearLaws(sp, b, y, y) && LinearLaws(sp, ZERO, sp.scale(a, x), sp.scale(b, y));
    assert SquareLaw(sp, x);
    LinScales(sp, b, Elt(21), Elt(5), x);
    assert LinearLaws(sp, ZERO, x, x);
    Cancels(sp, sp.scale(a, y), sp.zero);
    LinAdds(sp, ZERO, a, Product(b, Elt(21)), Product(b, Elt(5)), x);
    XorUnit(Product(b, Elt(21)), ZERO);
  }

  /** (u + v * e) * (p + q * e). */
  lemma LinOfLin<V(!new)>(sp: Space<V>, u: Symbol, v: Symbol, p: Symbol, q: Symbol, x: V)
    requires Quadratic(sp)
    ensures var y := Lin(sp, p, q, x);
      Lin(sp, u, v, y) == Lin(sp, Xor(Product(u, p), Product(v, Product(q, Elt(21)))), Xor(Product(u, q), Product(v, Xor(p, Product(q, Elt(5))))), x)
  {
    LinScales(sp, u, p, q, x);
    LinTurns(sp, p, q, x);
    LinScales(sp, v, Product(q, Elt(21)), Xor(p, Product(q, Elt(5))), x);
    LinAdds(sp, Product(u, p), Product(u, q), Product(v, Product(q, Elt(21))), Product(v, Xor(p, Product(q, Elt(5)))), x);
  }

  /** r + s * e is the product, all given by logarithms. */
  predicate IsProduct(u: nat, v: nat, p: nat, q: nat, r: nat, s: nat) {
    && r == LogAdd(LogMul(u, p), LogMul(v, LogMul(q, 21)))
    && s == LogAdd(LogMul(u, q), LogMul(v, LogAdd(p, LogMul(q, 5))))
  }

  lemma LogsMultiply(u: nat, v: nat, p: nat, q: nat, r: nat, s: nat)
    requires u <= 31 && v <= 31 && p <= 31 && q <= 31 && IsProduct(u, v, p, q, r, s)
    ensures r <= 31 && Xor(Product(Elt(u), Elt(p)), Product(Elt(v), Product(Elt(q), Elt(21)))) == Elt(r)
    ensures s <= 31 && Xor(Product(Elt(u), Elt(q)), Product(Elt(v), Xor(Elt(p), Product(Elt(q), Elt(5))))) == Elt(s)
  {
    FirstLog(u, v, p, q);
    SecondLog(u, v, p, q);
  }

  lemma FirstLog(u: nat, v: nat, p: nat, q: nat)
    requires u <= 31 && v <= 31 && p <= 31 && q <= 31
    ensures var r := LogAdd(LogMul(u, p), LogMul(v, LogMul(q, 21)));
      r <= 31 && Xor(Product(Elt(u), Elt(p)), Product(Elt(v), Product(Elt(q), Elt(21)))) == Elt(r)
  {
    LogMulIs(q, 21);
    LogMulIs(u, p);
    LogMulIs(v, LogMul(q, 21));
    LogAddIs(LogMul(u, p), LogMul(v, LogMul(q, 21)));
  }

  lemma SecondLog(u: nat, v: nat, p: nat, q: nat)
    requires u <= 31 && v <= 31 && p <= 31 && q <= 31
    ensures var s := LogAdd(LogMul(u, q), LogMul(v, LogAdd(p, LogMul(q, 5))));
      s <= 31 && Xor(Product(Elt(u), Elt(q)), Product(Elt(v), Xor(Elt(p), Product(Elt(q), Elt(5))))) == Elt(s)
  {
    LogMulIs(q, 5);
    LogAddIs(p, LogMul(q, 5));
    LogMulIs(u, q);
    LogMulIs(v, LogAdd(p, LogMul(q, 5)));
    LogAddIs(LogMul(u, q), LogMul(v, LogAdd(p, LogMul(q, 5))));
  }

  // ---------------------------------------------------------------- powers of e

  ghost predicate ActsAt<V(!new)>(sp: Space<V>, k: nat, a: Symbol, b: Symbol, x: V) {
    Pow(sp, k, x) == Lin(sp, a, b, x)
  }

  /** e^k = a + b * e. */
  ghost predicate ActsAs<V(!new)>(sp: Space<V>, k: nat, a: Symbol, b: Symbol) {
    forall x: V {:trigger ActsAt(sp, k, a, b, x)} :: ActsAt(sp, k, a, b, x)
  }

  /** e^k = a + b * e, where u and v are the logarithms of a and b. */
  ghost predicate Acts<V(!new)>(sp: Space<V>, k: nat, u: nat, v: nat) {
    ActsAs(sp, k, Elt(u), Elt(v))
  }

  /** (a + b * e) * (c + d * e) * x = (f + g * e) * x. */
  ghost predicate ComposesAt<V(!new)>(sp: Space<V>, a: Symbol, b: Symbol, c: Symbol, d: Symbol, f: Symbol, g: Symbol, x: V) {
    Lin(sp, a, b, Lin(sp, c, d, x)) == Lin(sp, f, g, x)
  }

  lemma ActsCompose<V(!new)>(sp: Space<V>, k: nat, l: nat, a: Symbol, b: Symbol, c: Symbol, d: Symbol, f: Symbol, g: Symbol)
    requires ActsAs(sp, k, a, b) && ActsAs(sp, l, c, d)
    requires forall x: V {:trigger ComposesAt(sp, a, b, c, d, f, g, x)} :: ComposesAt(sp, a, b, c, d, f, g, x)
    ensures ActsAs(sp, k + l, f, g)
  {
    var n := k + l;
    forall x: V ensures ActsAt(sp, n, f, g, x) {
      assert ActsAt(sp, l, c, d, x);
      PowAdd(sp, k, l, x);
      assert ActsAt(sp, k, a, b, Pow(sp, l, x));
      assert ComposesAt(sp, a, b, c, d, f, g, x);
    }
  }

  lemma LinLogs<V(!new)>(sp: Space<V>, u: nat, v: nat, p: nat, q: nat, r: nat, s: nat, x: V)
    requires Quadratic(sp) && u <= 31 && v <= 31 && p <= 31 && q <= 31 && IsProduct(u, v, p, q, r, s)
    ensures Lin(sp, Elt(u), Elt(v), Lin(sp, Elt(p), Elt(q), x)) == Lin(sp, Elt(r), Elt(s), x)
  {
    LogsMultiply(u, v, p, q, r, s);
    LinOfLin(sp, Elt(u), Elt(v), Elt(p), Elt(q), x);
  }

  lemma ActsSum<V(!new)>(sp: Space<V>, k: nat, l: nat, u: nat, v: nat, p: nat, q: nat, r: nat, s: nat)
    requires Quadratic(sp) && Acts(sp, k, u, v) && Acts(sp, l, p, q)
    requires u <= 31 && v <= 31 && p <= 31 && q <= 31 && IsProduct(u, v, p, q, r, s)
    ensures Acts(sp, k + l, r, s)
  {
    forall x: V ensures ComposesAt(sp, Elt(u), Elt(v), Elt(p), Elt(q), Elt(r), Elt(s), x) {
      LinLogs(sp, u, v, p, q, r, s, x);
    }
    ActsCompose(sp, k, l, Elt(u), Elt(v), Elt(p), Elt(q), Elt(r), Elt(s));
  }

  lemma ActsOne<V(!new)>(sp: Space<V>, one: nat)
    requires Quadratic(sp) && one == 1
    ensures Acts(sp, one, 31, 0)
  {
    forall x: V ensures ActsAt(sp, one, Elt(31), Elt(0), x) {
      assert Pow(sp, one, x) == sp.turn(Pow(sp, one - 1, x));
      assert Elt(31) == ZERO && Elt(0) == ONE;
      assert LinearLaws(sp, ZERO, x, x) && LinearLaws(sp, ONE, sp.turn(x), x);
      Cancels(sp, sp.turn(x), sp.zero);
    }
  }

  lemma SmallPowers<V(!new)>(sp: Space<V>, one: nat)
    requires Quadratic(sp) && one == 1
    ensures Acts(sp, one, 31, 0) && Acts(sp, 2 * one, 21, 5) && Acts(sp, 8 * one, 18, 4)
    ensures Acts(sp, 16 * one, 14, 13) && Acts(sp, 20 * one, 26, 22)
  {
    ActsOne(sp, one);
    SmallProducts();
    ActsSum(sp, 1 * one, 1 * one, 31, 0, 31, 0, 21, 5);
    ActsSum(sp, 2 * one, 2 * one, 21, 5, 21, 5, 23, 15);
    ActsSum(sp, 4 * one, 1 * one, 23, 15, 31, 0, 5, 25);
    ActsSum(sp, 4 * one, 4 * one, 23, 15, 23, 15, 18, 4);
    ActsSum(sp, 5 * one, 5 * one, 5, 25, 5, 25, 23, 24);
    ActsSum(sp, 8 * one, 8 * one, 18, 4, 18, 4, 14, 13);
    ActsSum(sp, 10 * one, 10 * one, 23, 24, 23, 24, 26, 22);
  }

  lemma SmallProducts()
    ensures IsProduct(31, 0, 31, 0, 21, 5)
    ensures IsProduct(21, 5, 21, 5, 23, 15)
    ensures IsProduct(23, 15, 31, 0, 5, 25)
    ensures IsProduct(23, 15, 23, 15, 18, 4)
    ensures IsProduct(5, 25, 5, 25, 23, 24)
    ensures IsProduct(18, 4, 18, 4, 14, 13)
    ensures IsProduct(23, 24, 23, 24, 26, 22)
  {
  }

  lemma MiddlePowers<V(!new)>(sp: Space<V>, one: nat)
    requires Quadratic(sp) && one == 1
    ensures Acts(sp, 33 * one, 21, 31) && Acts(sp, 42 * one, 15, 23) && Acts(sp, 85 * one, 10, 16)
  {
    SmallPowers(sp, one);
    MiddleProducts();
    ActsSum(sp, 20 * one, 1 * one, 26, 22, 31, 0, 12, 9);
    ActsSum(sp, 16 * one, 16 * one, 14, 13, 14, 13, 5, 0);
    ActsSum(sp, 32 * one, 1 * one, 5, 0, 31, 0, 21, 31);
    ActsSum(sp, 21 * one, 21 * one, 12, 9, 12, 9, 15, 23);
    ActsSum(sp, 42 * one, 42 * one, 15, 23, 15, 23, 9, 20);
    ActsSum(sp, 84 * one, 1 * one, 9, 20, 31, 0, 10, 16);
  }

  lemma MiddleProducts()
    ensures IsProduct(26, 22, 31, 0, 12, 9)
    ensures IsProduct(14, 13, 14, 13, 5, 0)
    ensures IsProduct(5, 0, 31, 0, 21, 31)
    ensures IsProduct(12, 9, 12, 9, 15, 23)
    ensures IsProduct(15, 23, 15, 23, 9, 20)
    ensures IsProduct(9, 20, 31, 0, 10, 16)
  {
  }

  lemma LargePowers<V(!new)>(sp: Space<V>, one: nat)
    requires Quadratic(sp) && one == 1
    ensures Acts(sp, 93 * one, 27, 8) && Acts(sp, 170 * one, 17, 6) && Acts(sp, 341 * one, 7, 26)
    ensures Acts(sp, 682 * one, 16, 26) && Acts(sp, 1023 * one, 0, 31)
  {
    SmallPowers(sp, one);
    MiddlePowers(sp, one);
    LargeProducts();
    ActsSum(sp, 85 * one, 8 * one, 10, 16, 18, 4, 27, 8);
    ActsSum(sp, 85 * one, 85 * one, 10, 16, 10, 16, 17, 6);
    ActsSum(sp, 170 * one, 170 * one, 17, 6, 17, 6, 16, 17);
    ActsSum(sp, 340 * one, 1 * one, 16, 17, 31, 0, 7, 26);
    ActsSum(sp, 341 * one, 341 * one, 7, 26, 7, 26, 16, 26);
    ActsSum(sp, 682 * one, 341 * one, 16, 26, 7, 26, 0, 31);
  }

  lemma LargeProducts()
    ensures IsProduct(10, 16, 18, 4, 27, 8)
    ensures IsProduct(10, 16, 10, 16, 17, 6)
    ensures IsProduct(17, 6, 17, 6, 16, 17)
    ensures IsProduct(16, 17, 31, 0, 7, 26)
    ensures IsProduct(7, 26, 7, 26, 16, 26)
    ensures IsProduct(16, 26, 7, 26, 0, 31)
  {
  }

  // ---------------------------------------------------------------- the order of e

  /** If e * x = w * x for some w that is no root of x^2 + c * x + d, x is zero. */
  lemma NoEigenvector<V(!new)>(sp: Space<V>, w: Symbol, c: Symbol, d: Symbol, x: V)
    requires Lawful(sp) && sp.turn(x) == sp.scale(w, x) && sp.turn(sp.turn(x)) == Lin(sp, d, c, x)
    requires Xor(Product(w, w), Xor(d, Product(c, w))) != ZERO
    ensures x == sp.zero
  {
    TurnedTwice(sp, w, x);
    LinOfEigen(sp, w, c, d, x);
    ScalesAgree(sp, Product(w, w), Xor(d, Product(c, w)), x);
  }

  lemma TurnedTwice<V(!new)>(sp: Space<V>, w: Symbol, x: V)
    requires Lawful(sp) && sp.turn(x) == sp.scale(w, x)
    ensures sp.turn(sp.turn(x)) == sp.scale(Product(w, w), x)
  {
    assert LinearLaws(sp, w, x, x) && ScaleLaws(sp, w, w, x);
  }

  lemma LinOfEigen<V(!new)>(sp: Space<V>, w: Symbol, c: Symbol, d: Symbol, x: V)
    requires Lawful(sp) && sp.turn(x) == sp.scale(w, x)
    ensures Lin(sp, d, c, x) == sp.scale(Xor(d, Product(c, w)), x)
  {
    assert ScaleLaws(sp, c, w, x) && ScaleLaws(sp, d, Product(c, w), x);
  }

  lemma ScalesAgree<V(!new)>(sp: Space<V>, a: Symbol, b: Symbol, x: V)
    requires Lawful(sp) && sp.scale(a, x) == sp.scale(b, x) && Xor(a, b) != ZERO
    ensures x == sp.zero
  {
    assert ScaleLaws(sp, a, b, x);
    Cancels(sp, sp.scale(a, x), sp.scale(b, x));
    assert LinearLaws(sp, Xor(a, b), x, x);
  }

  /** w is not a root of the quadratic, by logarithms. */
  lemma NotARoot(w: nat)
    requires w <= 31 && LogAdd(LogMul(w, w), LogAdd(21, LogMul(5, w))) != 31
    ensures Xor(Product(Elt(w), Elt(w)), Xor(Elt(21), Product(Elt(5), Elt(w)))) != ZERO
  {
    LogMulIs(w, w);
    LogMulIs(5, w);
    LogAddIs(21, LogMul(5, w));
    LogAddIs(LogMul(w, w), LogAdd(21, LogMul(5, w)));
    EltZero(LogAdd(LogMul(w, w), LogAdd(21, LogMul(5, w))));
  }

  /** u + v * e fixes only zero, when w = (u + 1) / v is no root of the quadratic; i is 1 / v. */
  lemma ActsFixesNothing<V(!new)>(sp: Space<V>, k: nat, u: nat, v: nat, i: nat, w: nat, x: V)
    requires Quadratic(sp) && Acts(sp, k, u, v) && Fixes(sp, k, x) && u <= 31 && v <= 31 && i <= 31 && w <= 31
    requires LogMul(i, v) == 0 && LogMul(i, LogAdd(u, 0)) == w && LogAdd(LogMul(w, w), LogAdd(21, LogMul(5, w))) != 31
    ensures x == sp.zero
  {
    assert ActsAt(sp, k, Elt(u), Elt(v), x);
    MovedOver(sp, Elt(u), Elt(v), x);
    DivideOut(sp, u, v, i, w, x);
    NotARoot(w);
    assert SquareLaw(sp, x);
    NoEigenvector(sp, Elt(w), Elt(5), Elt(21), x);
  }

  lemma MovedOver<V(!new)>(sp: Space<V>, a: Symbol, b: Symbol, x: V)
    requires Lawful(sp) && Lin(sp, a, b, x) == x
    ensures sp.scale(b, sp.turn(x)) == sp.scale(Xor(a, ONE), x)
  {
    var p, q := sp.scale(a, x), sp.scale(b, sp.turn(x));
    assert ScaleLaws(sp, a, ONE, x) && LinearLaws(sp, ONE, x, x);
    Cancels(sp, sp.add(p, q), x);
    assert GroupLaws(sp, p, q, x) && GroupLaws(sp, q, x, p) && GroupLaws(sp, q, p, x) && GroupLaws(sp, p, x, q);
    Cancels(sp, q, sp.add(p, x));
  }

  lemma DivideOut<V(!new)>(sp: Space<V>, u: nat, v: nat, i: nat, w: nat, x: V)
    requires Lawful(sp) && u <= 31 && v <= 31 && i <= 31 && sp.scale(Elt(v), sp.turn(x)) == sp.scale(Xor(Elt(u), ONE), x)
    requires LogMul(i, v) == 0 && LogMul(i, LogAdd(u, 0)) == w
    ensures sp.turn(x) == sp.scale(Elt(w), x)
  {
    assert Elt(0) == ONE;
    LogAddIs(u, 0);
    LogMulIs(i, v);
    LogMulIs(i, LogAdd(u, 0));
    assert ScaleLaws(sp, Elt(i), Elt(v), sp.turn(x)) && ScaleLaws(sp, Elt(i), Elt(LogAdd(u, 0)), x);
    assert LinearLaws(sp, ONE, sp.turn(x), x);
  }

  lemma Fixes33<V(!new)>(sp: Space<V>, one: nat, x: V)
    requires Quadratic(sp) && one == 1 && Fixes(sp, 33 * one, x)
    ensures x == sp.zero
  {
    MiddlePowers(sp, one);
    assert ActsAt(sp, 33 * one, Elt(21), Elt(31), x);
    MovedOver(sp, Elt(21), Elt(31), x);
    assert Elt(31) == ZERO && Elt(0) == ONE;
    LogAddIs(21, 0);
    NotOne();
    EltZero(LogAdd(21, 0));
    assert LinearLaws(sp, ZERO, sp.turn(x), x) && LinearLaws(sp, Elt(LogAdd(21, 0)), x, x);
  }

  lemma NotOne()
    ensures LogAdd(21, 0) == 27
  {
  }

  lemma Quotients()
    ensures LogMul(23, 8) == 0 && LogMul(23, LogAdd(27, 0)) == 13
    ensures LogAdd(LogMul(13, 13), LogAdd(21, LogMul(5, 13))) != 31
    ensures LogMul(5, 26) == 0 && LogMul(5, LogAdd(7, 0)) == 21
    ensures LogAdd(LogMul(21, 21), LogAdd(21, LogMul(5, 21))) != 31
  {
  }

  lemma Fixes93<V(!new)>(sp: Space<V>, one: nat, x: V)
    requires Quadratic(sp) && one == 1 && Fixes(sp, 93 * one, x)
    ensures x == sp.zero
  {
    LargePowers(sp, one);
    Quotients();
    ActsFixesNothing(sp, 93 * one, 27, 8, 23, 13, x);
  }

  lemma Fixes341<V(!new)>(sp: Space<V>, one: nat, x: V)
    requires Quadratic(sp) && one == 1 && Fixes(sp, 341 * one, x)
    ensures x == sp.zero
  {
    LargePowers(sp, one);
    Quotients();
    ActsFixesNothing(sp, 341 * one, 7, 26, 5, 21, x);
  }

  lemma {:induction false} FixesMultiple<V(!new)>(sp: Space<V>, k: nat, n: nat, x: V)
    requires Fixes(sp, k, x)
    ensures Fixes(sp, k * n, x)
  {
    if n == 0 {
      assert k * n == 0;
    } else {
      FixesMultiple(sp, k, n - 1, x);
      assert k * n == k + k * (n - 1);
      PowAdd(sp, k, k * (n - 1), x);
    }
  }

  lemma FixesAll<V(!new)>(sp: Space<V>, x: V)
    requires Quadratic(sp)
    ensures Fixes(sp, PERIOD, x)
  {
    var one := PERIOD - 1022;
    LargePowers(sp, one);
    assert ActsAt(sp, 1023 * one, Elt(0), Elt(31), x);
    assert Elt(31) == ZERO && Elt(0) == ONE;
    assert LinearLaws(sp, ZERO, sp.turn(x), x) && LinearLaws(sp, ONE, x, x);
    Cancels(sp, x, sp.zero);
  }

  /** If p does not divide k and p * q is the period, what e^k fixes is fixed by e^q. */
  lemma FixesQuotient<V(!new)>(sp: Space<V>, k: nat, p: nat, q: nat, inverse: nat, m: nat, x: V)
    requires Quadratic(sp) && Fixes(sp, k, x) && p * q == PERIOD && k * inverse == 1 + p * m
    ensures Fixes(sp, q, x)
  {
    FixesMultiple(sp, k, inverse * q, x);
    FixesAll(sp, x);
    FixesMultiple(sp, PERIOD, m, x);
    Exponents(k, p, q, inverse, m);
    PowAdd(sp, q, PERIOD * m, x);
  }

  lemma Exponents(k: nat, p: nat, q: nat, inverse: nat, m: nat)
    requires p * q == PERIOD && k * inverse == 1 + p * m
    ensures k * (inverse * q) == q + PERIOD * m
  {
    assert k * (inverse * q) == k * inverse * q;
    assert (1 + p * m) * q == q + p * m * q;
    assert p * m * q == p * q * m;
  }

  /** Inverses modulo 11 and 31. */
  function Inverse11(r: nat): nat {
    match r
    case 1 => 1
    case 2 => 6
    case 3 => 4
    case 4 => 3
    case 5 => 9
    case 6 => 2
    case 7 => 8
    case 8 => 7
    case 9 => 5
    case _ => 10
  }

  function Inverse31(r: nat): nat {
    match r
    case 1 => 1
    case 2 => 16
    case 3 => 21
    case 4 => 8
    case 5 => 25
    case 6 => 26
    case 7 => 9
    case 8 => 4
    case 9 => 7
    case 10 => 28
    case 11 => 17
    case 12 => 13
    case 13 => 12
    case 14 => 20
    case 15 => 29
    case 16 => 2
    case 17 => 11
    case 18 => 19
    case 19 => 18
    case 20 => 14
    case 21 => 3
    case 22 => 24
    case 23 => 27
    case 24 => 22
    case 25 => 5
    case 26 => 6
    case 27 => 23
    case 28 => 10
    case 29 => 15
    case _ => 30
  }

  lemma InverseOf(k: nat, p: nat) returns (inverse: nat, m: nat)
    requires (p == 3 || p == 11 || p == 31) && k % p != 0
    ensures k * inverse == 1 + p * m
  {
    var r, d := k % p, k / p;
    var n;
    inverse, n := SmallInverse(r, p);
    m := n + d * inverse;
    Lifted(k, p, d, r, inverse, n);
  }

  lemma Lifted(k: nat, p: nat, d: nat, r: nat, inverse: nat, n: nat)
    requires k == p * d + r && r * inverse == 1 + p * n
    ensures k * inverse == 1 + p * (n + d * inverse)
  {
    Spread(p * d, r, inverse);
    assert p * d * inverse == p * (d * inverse);
    assert p * (n + d * inverse) == p * n + p * (d * inverse);
  }

  lemma Spread(a: nat, b: nat, c: nat)
    ensures (a + b) * c == a * c + b * c
  {
  }

  lemma SmallInverse(r: nat, p: nat) returns (inverse: nat, n: nat)
    requires (p == 3 || p == 11 || p == 31) && 0 < r < p
    ensures r * inverse == 1 + p * n
  {
    if p == 3 {
      inverse, n := r, if r == 1 then 0 else 1;
    } else if p == 11 {
      inverse := Inverse11(r);
      n := Quotient11(r);
    } else {
      inverse := Inverse31(r);
      n := Quotient31(r);
    }
  }

  lemma Quotient11(r: nat) returns (n: nat)
    requires 0 < r < 11
    ensures r * Inverse11(r) == 1 + 11 * n
  {
    match r
    case 1 => n := 0;
    case 2 => n := 1;
    case 3 => n := 1;
    case 4 => n := 1;
    case 5 => n := 4;
    case 6 => n := 1;
    case 7 => n := 5;
    case 8 => n := 5;
    case 9 => n := 4;
    case _ => n := 9;
  }

  lemma Quotient31(r: nat) returns (n: nat)
    requires 0 < r < 31
    ensures r * Inverse31(r) == 1 + 31 * n
  {
    match r
    case 1 => n := 0;
    case 2 => n := 1;
    case 3 => n := 2;
    case 4 => n := 1;
    case 5 => n := 4;
    case 6 => n := 5;
    case 7 => n := 2;
    case 8 => n := 1;
    case 9 => n := 2;
    case 10 => n := 9;
    case 11 => n := 6;
    case 12 => n := 5;
    case 13 => n := 5;
    case 14 => n := 9;
    case 15 => n := 14;
    case 16 => n := 1;
    case 17 => n := 6;
    case 18 => n := 11;
    case 19 => n := 11;
    case 20 => n := 9;
    case 21 => n := 2;
    case 22 => n := 17;
    case 23 => n := 20;
    case 24 => n := 17;
    case 25 => n := 4;
    case 26 => n := 5;
    case 27 => n := 20;
    case 28 => n := 9;
    case 29 => n := 14;
    case _ => n := 29;
  }

  /** No positive number below 3 * 11 * 31 is a multiple of all three. */
  lemma SomeDivisorMissing(k: nat)
    requires 0 < k < PERIOD
    ensures k % 3 != 0 || k % 11 != 0 || k % 31 != 0
  {
    var a, b, c := k / 3, k / 11, k / 31;
    var r := 682 * (k % 3) + 837 * (k % 11) + 528 * (k % 31);
    assert k + r == 1023 * (2 * a + 9 * b + 16 * c - 2 * k) + 2 * r;
  }

  /** e has order 1023: a smaller power fixes nothing but zero. */
  lemma OrderOfE<V(!new)>(sp: Space<V>, k: nat, x: V)
    requires Quadratic(sp) && 0 < k < PERIOD && Fixes(sp, k, x)
    ensures x == sp.zero
  {
    var one := PERIOD - 1022;
    SomeDivisorMissing(k);
    if k % 3 != 0 {
      var inverse, m := InverseOf(k, 3);
      FixesQuotient(sp, k, 3, 341 * one, inverse, m, x);
      Fixes341(sp, one, x);
    } else if k % 11 != 0 {
      var inverse, m := InverseOf(k, 11);
      FixesQuotient(sp, k, 11, 93 * one, inverse, m, x);
      Fixes93(sp, one, x);
    } else {
      var inverse, m := InverseOf(k, 31);
      FixesQuotient(sp, k, 31, 33 * one, inverse, m, x);
      Fixes33(sp, one, x);
    }
  }

  lemma FieldPeriod()
    ensures Quadratic(E) && HasPeriod(E, PERIOD)
  {
    FieldQuadratic();
    forall x: Pair ensures Fixes(E, PERIOD, x) { FixesAll(E, x); }
    forall k: nat, x: Pair | 0 < k < PERIOD && Fixes(E, k, x) ensures x == E.zero { OrderOfE(E, k, x); }
  }

  // ---------------------------------------------------------------- polynomials at powers of e

  /** The coefficients s have the value a + b * e at e^m. */
  ghost predicate ValueIs<V(!new)>(sp: Space<V>, m: nat, s: seq<Symbol>, a: nat, b: nat) {
    Value(sp, m, s) == Lin(sp, Elt(a), Elt(b), sp.unit)
  }

  /** One step of Horner's rule, by logarithms: r + b' * e is the product, to which c is added. */
  lemma HornerNext<V(!new)>(sp: Space<V>, m: nat, u: nat, v: nat, s: seq<Symbol>, a: nat, b: nat, c: nat, r: nat, a': nat, b': nat)
    requires Quadratic(sp) && Acts(sp, m, u, v) && ValueIs(sp, m, s, a, b) && u <= 31 && v <= 31 && a <= 31 && b <= 31 && c <= 31
    ensures IsProduct(u, v, a, b, r, b') && a' == LogAdd(r, c) ==> ValueIs(sp, m, s + [Elt(c)], a', b') && a' <= 31 && b' <= 31
  {
    if IsProduct(u, v, a, b, r, b') && a' == LogAdd(r, c) {
      ValueSnoc(sp, m, s, Elt(c));
      assert ActsAt(sp, m, Elt(u), Elt(v), Value(sp, m, s));
      LinLogs(sp, u, v, a, b, r, b', sp.unit);
      LogsMultiply(u, v, a, b, r, b');
      AddConstant(sp, Elt(r), Elt(b'), Elt(c));
      LogAddIs(r, c);
    }
  }

  lemma AddConstant<V(!new)>(sp: Space<V>, a: Symbol, b: Symbol, c: Symbol)
    requires Lawful(sp)
    ensures sp.add(Lin(sp, a, b, sp.unit), sp.scale(c, sp.unit)) == Lin(sp, Xor(a, c), b, sp.unit)
  {
    var x := sp.unit;
    assert LinearLaws(sp, ZERO, sp.turn(x), x);
    Cancels(sp, sp.scale(c, x), sp.zero);
    LinAdds(sp, a, b, c, ZERO, x);
    XorUnit(b, ZERO);
  }

  lemma HornerStart<V(!new)>(sp: Space<V>, m: nat)
    requires Lawful(sp)
    ensures ValueIs(sp, m, [ONE], 0, 31)
  {
    assert [ONE] == [] + [ONE] && Elt(0) == ONE && Elt(31) == ZERO;
    ValueSnoc(sp, m, [], ONE);
    PowOfZero(sp, m);
    assert LinearLaws(sp, ONE, sp.unit, sp.unit) && LinearLaws(sp, ZERO, sp.turn(sp.unit), sp.unit);
    Cancels(sp, sp.unit, sp.zero);
  }

  /** The symbols with these logarithms. */
  ghost function Coefficients(logs: seq<nat>): seq<Symbol> {
    seq(|logs|, i requires 0 <= i < |logs| => Elt(logs[i]))
  }

  /** The value of the first n coefficients after the leading one is a + b * e. */
  ghost predicate HornerValue<V(!new)>(sp: Space<V>, m: nat, c: seq<nat>, n: nat, a: nat, b: nat)
    requires n <= |c|
  {
    ValueIs(sp, m, [ONE] + Coefficients(c)[..n], a, b) && a <= 31 && b <= 31
  }

  lemma HornerOne<V(!new)>(sp: Space<V>, m: nat, c: seq<nat>)
    requires Lawful(sp)
    ensures HornerValue(sp, m, c, 0, 0, 31)
  {
    HornerStart(sp, m);
    assert [ONE] + Coefficients(c)[..0] == [ONE];
  }

  /** From a + b * e to a' + b' * e by coefficient i: r + b' * e is the product with u + v * e, to which it is added. */
  predicate HornerStep(u: nat, v: nat, c: seq<nat>, i: nat, a: nat, b: nat, r: nat, a': nat, b': nat) {
    i < |c| && c[i] <= 31 && IsProduct(u, v, a, b, r, b') && a' == LogAdd(r, c[i])
  }

  /** P follows Horner's rule for the coefficients c. */
  ghost predicate Chains(u: nat, v: nat, c: seq<nat>, P: (nat, nat, nat) -> bool) {
    && P(0, 0, 31)
    && forall i: nat, a: nat, b: nat, r: nat, a': nat, b': nat {:trigger HornerStep(u, v, c, i, a, b, r, a', b'), P(i, a, b)} ::
      P(i, a, b) && HornerStep(u, v, c, i, a, b, r, a', b') ==> P(i + 1, a', b')
  }

  /** The value of the first n coefficients at e^m is a + b * e. */
  ghost function Values<V(!new)>(sp: Space<V>, m: nat, c: seq<nat>): (nat, nat, nat) -> bool {
    (n: nat, a: nat, b: nat) => n <= |c| && HornerValue(sp, m, c, n, a, b)
  }

  lemma ValuesChain<V(!new)>(sp: Space<V>, m: nat, u: nat, v: nat, c: seq<nat>)
    requires Quadratic(sp) && Acts(sp, m, u, v) && u <= 31 && v <= 31
    ensures Chains(u, v, c, Values(sp, m, c))
  {
    var P := Values(sp, m, c);
    HornerOne(sp, m, c);
    forall i: nat, a: nat, b: nat, r: nat, a': nat, b': nat | P(i, a, b) && HornerStep(u, v, c, i, a, b, r, a', b')
      ensures P(i + 1, a', b')
    {
      PrefixNext(c, i);
      HornerNext(sp, m, u, v, [ONE] + Coefficients(c)[..i], a, b, c[i], r, a', b');
    }
  }

  lemma PrefixNext(c: seq<nat>, i: nat)
    requires i < |c|
    ensures [ONE] + Coefficients(c)[..i + 1] == [ONE] + Coefficients(c)[..i] + [Elt(c[i])]
  {
  }

  /** e^m is a root if Horner's rule ends at zero. */
  lemma RootByHorner<V(!new)>(sp: Space<V>, m: nat, gen: Residue, c: seq<nat>)
    requires Lawful(sp) && gen == Coefficients(c) && Values(sp, m, c)(|c|, 31, 31)
    ensures IsRoot(sp, m, gen)
  {
    assert gen[..|c|] == gen && Elt(31) == ZERO;
    assert LinearLaws(sp, ZERO, sp.unit, sp.unit) && LinearLaws(sp, ZERO, sp.turn(sp.unit), sp.unit);
    Cancels(sp, sp.zero, sp.zero);
  }
}
