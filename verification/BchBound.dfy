/**
 Why a BCH code detects as many errors as its generator has roots at equal distances
 (src/bech32.cpp:123-127 and :157-160, src/codex32.cpp:130-132), for any linear map on a vector
 space over GF(32) whose powers below some period fix nothing but zero.

 The space and the map are arbitrary; GF(1024) with multiplication by e is the instance that the
 Bech32 and codex32 generators use.
 */
module BchBound {
  import opened Gf32
  import opened Checksums
  import Gf1024
  import Numbers

  /** A vector space over GF(32) with a distinguished vector and a linear map. */
  datatype Space<!V> = Space(zero: V, unit: V, add: (V, V) -> V, scale: (Symbol, V) -> V, turn: V -> V)

  ghost predicate GroupLaws<V(!new)>(sp: Space<V>, x: V, y: V, z: V) {
    && sp.add(x, y) == sp.add(y, x) && sp.add(sp.add(x, y), z) == sp.add(x, sp.add(y, z))
    && sp.add(x, sp.zero) == x && sp.add(x, x) == sp.zero
  }

  ghost predicate LinearLaws<V(!new)>(sp: Space<V>, c: Symbol, x: V, y: V) {
    && sp.turn(sp.add(x, y)) == sp.add(sp.turn(x), sp.turn(y)) && sp.turn(sp.scale(c, x)) == sp.scale(c, sp.turn(x))
    && sp.scale(c, sp.add(x, y)) == sp.add(sp.scale(c, x), sp.scale(c, y))
    && sp.scale(ONE, x) == x && sp.scale(ZERO, x) == sp.zero && (sp.scale(c, x) == sp.zero ==> c == ZERO || x == sp.zero)
  }

  ghost predicate ScaleLaws<V(!new)>(sp: Space<V>, c: Symbol, d: Symbol, x: V) {
    && sp.scale(Xor(c, d), x) == sp.add(sp.scale(c, x), sp.scale(d, x))
    && sp.scale(Product(c, d), x) == sp.scale(c, sp.scale(d, x))
  }

  ghost predicate Lawful<V(!new)>(sp: Space<V>) {
    && (forall x: V, y: V, z: V {:trigger GroupLaws(sp, x, y, z)} :: GroupLaws(sp, x, y, z))
    && (forall c: Symbol, x: V, y: V {:trigger LinearLaws(sp, c, x, y)} :: LinearLaws(sp, c, x, y))
    && (forall c: Symbol, d: Symbol, x: V {:trigger ScaleLaws(sp, c, d, x)} :: ScaleLaws(sp, c, d, x))
  }

  // ---------------------------------------------------------------- sums

  lemma Cancels<V(!new)>(sp: Space<V>, x: V, y: V)
    requires Lawful(sp)
    ensures sp.add(x, y) == sp.zero <==> x == y
    ensures sp.add(x, sp.zero) == x && sp.add(sp.zero, x) == x
  {
    assert GroupLaws(sp, x, x, y) && GroupLaws(sp, x, y, y) && GroupLaws(sp, y, sp.zero, x) && GroupLaws(sp, x, sp.zero, x);
  }

  lemma Regroup<V(!new)>(sp: Space<V>, a: V, b: V, c: V, d: V)
    requires Lawful(sp)
    ensures sp.add(sp.add(a, b), sp.add(c, d)) == sp.add(sp.add(a, c), sp.add(b, d))
  {
    assert GroupLaws(sp, a, b, sp.add(c, d)) && GroupLaws(sp, b, c, d) && GroupLaws(sp, c, b, d) && GroupLaws(sp, a, c, sp.add(b, d));
  }

  // ---------------------------------------------------------------- powers of the map

  ghost function Pow<V(!new)>(sp: Space<V>, k: nat, x: V): V {
    if k == 0 then x else sp.turn(Pow(sp, k - 1, x))
  }

  lemma {:induction false} PowAdd<V(!new)>(sp: Space<V>, k: nat, l: nat, x: V)
    ensures Pow(sp, k + l, x) == Pow(sp, k, Pow(sp, l, x))
  {
    if k > 0 {
      PowAdd(sp, k - 1, l, x);
    }
  }

  lemma {:induction false} PowLinear<V(!new)>(sp: Space<V>, k: nat, c: Symbol, x: V, y: V)
    requires Lawful(sp)
    ensures Pow(sp, k, sp.add(x, y)) == sp.add(Pow(sp, k, x), Pow(sp, k, y))
    ensures Pow(sp, k, sp.scale(c, x)) == sp.scale(c, Pow(sp, k, x))
  {
    if k > 0 {
      PowLinear(sp, k - 1, c, x, y);
      assert LinearLaws(sp, c, Pow(sp, k - 1, x), Pow(sp, k - 1, y));
    }
  }

  lemma PowOfZero<V(!new)>(sp: Space<V>, k: nat)
    requires Lawful(sp)
    ensures Pow(sp, k, sp.zero) == sp.zero
  {
    PowLinear(sp, k, ZERO, sp.zero, sp.zero);
    assert LinearLaws(sp, ZERO, sp.zero, sp.zero) && LinearLaws(sp, ZERO, Pow(sp, k, sp.zero), sp.zero);
  }

  /** The map repeats after `period`, and no earlier on anything but zero. */
  ghost predicate HasPeriod<V(!new)>(sp: Space<V>, period: nat) {
    && period > 0
    && (forall x: V {:trigger Fixes(sp, period, x)} :: Fixes(sp, period, x))
    && (forall k: nat, x: V {:trigger Fixes(sp, k, x)} :: 0 < k < period && Fixes(sp, k, x) ==> x == sp.zero)
  }

  ghost predicate Fixes<V(!new)>(sp: Space<V>, k: nat, x: V) {
    Pow(sp, k, x) == x
  }

  lemma PowInjective<V(!new)>(sp: Space<V>, period: nat, k: nat, x: V, y: V)
    requires Lawful(sp) && HasPeriod(sp, period) && k <= period && Pow(sp, k, x) == Pow(sp, k, y)
    ensures x == y
  {
    PowAdd(sp, period - k, k, x);
    PowAdd(sp, period - k, k, y);
    assert Fixes(sp, period, x) && Fixes(sp, period, y);
  }

  /** Different powers agree only on zero. */
  lemma PowersApart<V(!new)>(sp: Space<V>, period: nat, i: nat, j: nat, x: V)
    requires Lawful(sp) && HasPeriod(sp, period) && i < period && j < period && i != j && Pow(sp, i, x) == Pow(sp, j, x)
    ensures x == sp.zero
  {
    if i < j {
      PowAdd(sp, i, j - i, x);
      PowInjective(sp, period, i, x, Pow(sp, j - i, x));
      assert Fixes(sp, j - i, x);
    } else {
      PowAdd(sp, j, i - j, x);
      PowInjective(sp, period, j, x, Pow(sp, i - j, x));
      assert Fixes(sp, i - j, x);
    }
  }

  /** Whole periods make no difference. */
  lemma {:induction false} PowMod<V(!new)>(sp: Space<V>, period: nat, k: nat, x: V)
    requires HasPeriod(sp, period)
    ensures Pow(sp, k, x) == Pow(sp, k % period, x)
  {
    if k >= period {
      PowAdd(sp, k - period, period, x);
      assert Fixes(sp, period, x);
      PowMod(sp, period, k - period, x);
      SameRest(k, period);
    }
  }

  lemma SameRest(k: nat, n: nat)
    requires 0 < n <= k
    ensures (k - n) % n == k % n
  {
    var q, r := k / n, k % n;
    assert n * q == q * n && n * (q - 1) == (q - 1) * n;
    assert q > 0;
    Numbers.DivisionUnique(k - n, n, q - 1, r);
  }

  // ---------------------------------------------------------------- vectors turned by different powers

  /** The vectors, each turned j times by its own power, added up. */
  ghost function TurnedSum<V(!new)>(sp: Space<V>, j: nat, fs: seq<nat>, xs: seq<V>): V
    requires |fs| == |xs|
  {
    if fs == [] then sp.zero
    else
      var n := |fs| - 1;
      sp.add(TurnedSum(sp, j, fs[..n], xs[..n]), Pow(sp, j * fs[n], xs[n]))
  }

  /** What is left of each vector when those turned by k are to cancel. */
  ghost function Eliminated<V(!new)>(sp: Space<V>, k: nat, fs: seq<nat>, xs: seq<V>): (ys: seq<V>)
    requires |fs| == |xs|
    ensures |ys| == |xs|
  {
    seq(|xs|, i requires 0 <= i < |xs| => sp.add(Pow(sp, fs[i], xs[i]), Pow(sp, k, xs[i])))
  }

  lemma EliminateOne<V(!new)>(sp: Space<V>, k: nat, j: nat, f: nat, x: V)
    requires Lawful(sp)
    ensures Pow(sp, j * f, sp.add(Pow(sp, f, x), Pow(sp, k, x))) == sp.add(Pow(sp, (j + 1) * f, x), Pow(sp, k, Pow(sp, j * f, x)))
  {
    PowLinear(sp, j * f, ZERO, Pow(sp, f, x), Pow(sp, k, x));
    assert (j + 1) * f == j * f + f;
    PowAdd(sp, j * f, f, x);
    PowAdd(sp, j * f, k, x);
    PowAdd(sp, k, j * f, x);
  }

  lemma {:induction false} EliminateAll<V(!new)>(sp: Space<V>, k: nat, j: nat, fs: seq<nat>, xs: seq<V>)
    requires Lawful(sp) && |fs| == |xs|
    ensures TurnedSum(sp, j, fs, Eliminated(sp, k, fs, xs)) == sp.add(TurnedSum(sp, j + 1, fs, xs), Pow(sp, k, TurnedSum(sp, j, fs, xs)))
    decreases |fs|
  {
    if fs == [] {
      PowOfZero(sp, k);
      Cancels(sp, sp.zero, sp.zero);
    } else {
      var n := |fs| - 1;
      var rest, next := TurnedSum(sp, j, fs[..n], xs[..n]), TurnedSum(sp, j + 1, fs[..n], xs[..n]);
      EliminateAll(sp, k, j, fs[..n], xs[..n]);
      assert Eliminated(sp, k, fs, xs)[..n] == Eliminated(sp, k, fs[..n], xs[..n]);
      EliminateOne(sp, k, j, fs[n], xs[n]);
      PowLinear(sp, k, ZERO, rest, Pow(sp, j * fs[n], xs[n]));
      Regroup(sp, next, Pow(sp, k, rest), Pow(sp, (j + 1) * fs[n], xs[n]), Pow(sp, k, Pow(sp, j * fs[n], xs[n])));
    }
  }

  /** The powers differ, also when reduced to less than a period. */
  ghost predicate Apart(fs: seq<nat>, period: nat)
    requires period > 0
  {
    forall i, k :: 0 <= i < k < |fs| ==> fs[i] % period != fs[k] % period
  }

  ghost predicate Vanishes<V(!new)>(sp: Space<V>, j: nat, fs: seq<nat>, xs: seq<V>)
    requires |fs| == |xs|
  {
    TurnedSum(sp, j, fs, xs) == sp.zero
  }

  /** The last vector is eliminated from two sums in a row. */
  lemma EliminatedVanishes<V(!new)>(sp: Space<V>, j: nat, fs: seq<nat>, xs: seq<V>)
    requires Lawful(sp) && |fs| == |xs| > 0 && Vanishes(sp, j, fs, xs) && Vanishes(sp, j + 1, fs, xs)
    ensures var n := |fs| - 1; Vanishes(sp, j, fs[..n], Eliminated(sp, fs[n], fs[..n], xs[..n]))
  {
    var n := |fs| - 1;
    var k, x := fs[n], xs[n];
    EliminateAll(sp, k, j, fs[..n], xs[..n]);
    Cancels(sp, TurnedSum(sp, j, fs[..n], xs[..n]), Pow(sp, j * k, x));
    Cancels(sp, TurnedSum(sp, j + 1, fs[..n], xs[..n]), Pow(sp, (j + 1) * k, x));
    assert (j + 1) * k == k + j * k;
    PowAdd(sp, k, j * k, x);
    Cancels(sp, Pow(sp, (j + 1) * k, x), Pow(sp, (j + 1) * k, x));
  }

  /**
   As many sums as there are vectors, each turned by its own power once more from one sum to the
   next: if all sums vanish, so do all vectors.
   */
  lemma {:induction false} AllVanish<V(!new)>(sp: Space<V>, period: nat, fs: seq<nat>, xs: seq<V>)
    requires Lawful(sp) && HasPeriod(sp, period) && |fs| == |xs| && Apart(fs, period)
    requires forall j: nat {:trigger Vanishes(sp, j, fs, xs)} :: j < |fs| ==> Vanishes(sp, j, fs, xs)
    ensures forall i :: 0 <= i < |xs| ==> xs[i] == sp.zero
    decreases |fs|
  {
    if fs != [] {
      var n := |fs| - 1;
      var k, init := fs[n], xs[..n];
      var ys := Eliminated(sp, k, fs[..n], init);
      forall j: nat | j < n ensures Vanishes(sp, j, fs[..n], ys) {
        assert Vanishes(sp, j, fs, xs) && Vanishes(sp, j + 1, fs, xs);
        EliminatedVanishes(sp, j, fs, xs);
      }
      AllVanish(sp, period, fs[..n], ys);
      forall i | 0 <= i < n ensures xs[i] == sp.zero {
        assert ys[i] == sp.zero;
        Cancels(sp, Pow(sp, fs[i], xs[i]), Pow(sp, k, xs[i]));
        PowMod(sp, period, fs[i], xs[i]);
        PowMod(sp, period, k, xs[i]);
        PowersApart(sp, period, fs[i] % period, k % period, xs[i]);
      }
      assert Vanishes(sp, 0, fs, xs);
      SumOfNothing(sp, fs[..n], init);
      Cancels(sp, xs[n], sp.zero);
    }
  }

  lemma {:induction false} SumOfNothing<V(!new)>(sp: Space<V>, fs: seq<nat>, xs: seq<V>)
    requires Lawful(sp) && |fs| == |xs| && forall i :: 0 <= i < |xs| ==> xs[i] == sp.zero
    ensures TurnedSum(sp, 0, fs, xs) == sp.zero
    decreases |fs|
  {
    if fs != [] {
      var n := |fs| - 1;
      SumOfNothing(sp, fs[..n], xs[..n]);
      Cancels(sp, sp.zero, sp.zero);
    }
  }

  // ---------------------------------------------------------------- polynomials at a power of the map

  /** The polynomial with these coefficients, highest first, at the m-th power of the map. */
  ghost function Value<V(!new)>(sp: Space<V>, m: nat, s: seq<Symbol>): V {
    if s == [] then sp.zero
    else sp.add(Pow(sp, m, Value(sp, m, s[..|s| - 1])), sp.scale(s[|s| - 1], sp.unit))
  }

  lemma ValueSnoc<V(!new)>(sp: Space<V>, m: nat, s: seq<Symbol>, c: Symbol)
    ensures Value(sp, m, s + [c]) == sp.add(Pow(sp, m, Value(sp, m, s)), sp.scale(c, sp.unit))
  {
    assert (s + [c])[..|s|] == s;
  }

  /** The value of a longer polynomial depends only on the value of its beginning. */
  lemma {:induction false} ValueConcat<V(!new)>(sp: Space<V>, m: nat, a: seq<Symbol>, b: seq<Symbol>, s: seq<Symbol>)
    requires Value(sp, m, a) == Value(sp, m, b)
    ensures Value(sp, m, a + s) == Value(sp, m, b + s)
  {
    if s == [] {
      assert a + s == a && b + s == b;
    } else {
      var n := |s| - 1;
      ValueConcat(sp, m, a, b, s[..n]);
      ValueSnoc(sp, m, a + s[..n], s[n]);
      ValueSnoc(sp, m, b + s[..n], s[n]);
      assert a + s == a + s[..n] + [s[n]] && b + s == b + s[..n] + [s[n]];
    }
  }

  lemma {:induction false} ValueLinear<V(!new)>(sp: Space<V>, m: nat, a: seq<Symbol>, b: seq<Symbol>)
    requires Lawful(sp) && |a| == |b|
    ensures Value(sp, m, XorAll(a, b)) == sp.add(Value(sp, m, a), Value(sp, m, b))
    decreases |a|
  {
    if a == [] {
      Cancels(sp, sp.zero, sp.zero);
      assert XorAll(a, b) == [];
    } else {
      var n := |a| - 1;
      var x, y := Value(sp, m, a[..n]), Value(sp, m, b[..n]);
      ValueLinear(sp, m, a[..n], b[..n]);
      assert XorAll(a, b)[..n] == XorAll(a[..n], b[..n]);
      PowLinear(sp, m, ZERO, x, y);
      assert ScaleLaws(sp, a[n], b[n], sp.unit);
      Regroup(sp, Pow(sp, m, x), Pow(sp, m, y), sp.scale(a[n], sp.unit), sp.scale(b[n], sp.unit));
    }
  }

  function ScaleAll(c: Symbol, s: seq<Symbol>): (r: seq<Symbol>)
    ensures |r| == |s|
  {
    seq(|s|, i requires 0 <= i < |s| => Product(c, s[i]))
  }

  lemma {:induction false} ValueScale<V(!new)>(sp: Space<V>, m: nat, c: Symbol, s: seq<Symbol>)
    requires Lawful(sp)
    ensures Value(sp, m, ScaleAll(c, s)) == sp.scale(c, Value(sp, m, s))
    decreases |s|
  {
    if s == [] {
      ScaleZero(sp, c);
      assert ScaleAll(c, s) == [];
    } else {
      var n := |s| - 1;
      var x := Value(sp, m, s[..n]);
      ValueScale(sp, m, c, s[..n]);
      assert ScaleAll(c, s)[..n] == ScaleAll(c, s[..n]);
      PowLinear(sp, m, c, x, x);
      assert ScaleLaws(sp, c, s[n], sp.unit);
      assert LinearLaws(sp, c, Pow(sp, m, x), sp.scale(s[n], sp.unit));
    }
  }

  lemma ScaleZero<V(!new)>(sp: Space<V>, c: Symbol)
    requires Lawful(sp)
    ensures sp.scale(c, sp.zero) == sp.zero
  {
    assert LinearLaws(sp, c, sp.zero, sp.zero) && GroupLaws(sp, sp.zero, sp.zero, sp.zero);
    assert GroupLaws(sp, sp.scale(c, sp.zero), sp.scale(c, sp.zero), sp.zero);
  }

  // ---------------------------------------------------------------- remainders

  /** The m-th power of the map is a root of the generator, whose leading coefficient is one. */
  ghost predicate IsRoot<V(!new)>(sp: Space<V>, m: nat, gen: Residue) {
    Value(sp, m, [ONE] + gen) == sp.zero
  }

  /** At a root, reducing by the generator changes nothing. */
  lemma ValueStep<V(!new)>(sp: Space<V>, m: nat, t: Tables, gen: Residue, res: Residue, v: Symbol)
    requires Lawful(sp) && AreTables(t) && |gen| == |res| && |gen| > 0 && IsRoot(sp, m, gen)
    ensures Value(sp, m, Step(t, gen, res, v)) == Value(sp, m, res + [v])
  {
    var long, mult := res + [v], ScaleAll(res[0], [ONE] + gen);
    ValueScale(sp, m, res[0], [ONE] + gen);
    ScaleZero(sp, res[0]);
    ValueLinear(sp, m, long, mult);
    Cancels(sp, Value(sp, m, long), sp.zero);
    StepIs(t, gen, res, v);
    ValueLeadingZero(sp, m, Step(t, gen, res, v));
  }

  lemma StepIs(t: Tables, gen: Residue, res: Residue, v: Symbol)
    requires AreTables(t) && |gen| == |res| && |gen| > 0
    ensures XorAll(res + [v], ScaleAll(res[0], [ONE] + gen)) == [ZERO] + Step(t, gen, res, v)
  {
    var lhs, rhs := XorAll(res + [v], ScaleAll(res[0], [ONE] + gen)), [ZERO] + Step(t, gen, res, v);
    forall i: nat | i < |lhs| ensures lhs[i] == rhs[i] {
      StepIsIndex(t, gen, res, v, i);
    }
  }

  lemma StepIsIndex(t: Tables, gen: Residue, res: Residue, v: Symbol, i: nat)
    requires AreTables(t) && |gen| == |res| && |gen| > 0 && i <= |gen|
    ensures XorAll(res + [v], ScaleAll(res[0], [ONE] + gen))[i] == ([ZERO] + Step(t, gen, res, v))[i]
  {
    if i == 0 {
      LeadingCancels(gen, res, v);
    } else {
      StepIsAt(t, gen, res, v, i - 1);
      ShiftedAt(gen, res, v, i);
    }
  }

  lemma LeadingCancels(gen: Residue, res: Residue, v: Symbol)
    requires |gen| == |res| && |gen| > 0
    ensures XorAll(res + [v], ScaleAll(res[0], [ONE] + gen))[0] == ZERO
  {
    ScaledOne(res[0]);
  }

  lemma ShiftedAt(gen: Residue, res: Residue, v: Symbol, i: nat)
    requires |gen| == |res| && 0 < i <= |res|
    ensures XorAll(res + [v], ScaleAll(res[0], [ONE] + gen))[i] == Xor(if i < |res| then res[i] else v, Product(res[0], gen[i - 1]))
  {
    assert ([ONE] + gen)[i] == gen[i - 1];
  }

  lemma StepIsAt(t: Tables, gen: Residue, res: Residue, v: Symbol, i: nat)
    requires AreTables(t) && |gen| == |res| && i < |gen|
    ensures Step(t, gen, res, v)[i] == Xor(if i + 1 < |res| then res[i + 1] else v, Product(res[0], gen[i]))
  {
    ScaledGen(t, gen[i], res[0]);
  }

  lemma ScaledOne(c: Symbol)
    ensures Xor(c, Product(c, ONE)) == ZERO
  {
    Gf1024.ProductOne(c);
    Gf1024.ProductCommutes(c, ONE);
    XorUnit(c, c);
  }

  lemma ScaledGen(t: Tables, g: Symbol, c: Symbol)
    requires AreTables(t)
    ensures Product(c, g) == Mul(t, g, c)
  {
    MulIsProduct(t, g, c);
    Gf1024.ProductCommutes(c, g);
  }

  lemma ValueLeadingZero<V(!new)>(sp: Space<V>, m: nat, s: seq<Symbol>)
    requires Lawful(sp)
    ensures Value(sp, m, [ZERO] + s) == Value(sp, m, s)
  {
    assert [ZERO] == [] + [ZERO];
    ValueSnoc(sp, m, [], ZERO);
    PowOfZero(sp, m);
    assert LinearLaws(sp, ZERO, sp.unit, sp.unit);
    Cancels(sp, sp.zero, sp.zero);
    ValueConcat(sp, m, [ZERO], [], s);
    assert [] + s == s;
  }

  /** So at a root a remainder has the value of what it is the remainder of. */
  lemma {:induction false} ValueRun<V(!new)>(sp: Space<V>, m: nat, t: Tables, gen: Residue, res: Residue, vs: seq<Symbol>)
    requires Lawful(sp) && AreTables(t) && |gen| == |res| && |gen| > 0 && IsRoot(sp, m, gen)
    ensures Value(sp, m, Run(t, gen, res, vs)) == Value(sp, m, res + vs)
    decreases |vs|
  {
    if vs == [] {
      assert res + vs == res;
    } else {
      var next := Step(t, gen, res, vs[0]);
      ValueRun(sp, m, t, gen, next, vs[1..]);
      ValueStep(sp, m, t, gen, res, vs[0]);
      ValueConcat(sp, m, next, res + [vs[0]], vs[1..]);
      assert res + [vs[0]] + vs[1..] == res + vs;
    }
  }

  lemma {:induction false} ValueZeros<V(!new)>(sp: Space<V>, m: nat, n: nat)
    requires Lawful(sp)
    ensures Value(sp, m, Zeros(n)) == sp.zero
  {
    if n > 0 {
      ValueZeros(sp, m, n - 1);
      assert Zeros(n) == [ZERO] + Zeros(n - 1);
      ValueLeadingZero(sp, m, Zeros(n - 1));
    }
  }

  /** What leaves no remainder vanishes at every root. */
  lemma VanishesAtRoot<V(!new)>(sp: Space<V>, m: nat, t: Tables, gen: Residue, w: seq<Symbol>)
    requires Lawful(sp) && AreTables(t) && |gen| > 0 && IsRoot(sp, m, gen) && Run(t, gen, Zeros(|gen|), w) == Zeros(|gen|)
    ensures Value(sp, m, w) == sp.zero
  {
    ValueRun(sp, m, t, gen, Zeros(|gen|), w);
    ValueZeros(sp, m, |gen|);
    ValueConcat(sp, m, Zeros(|gen|), [], w);
    assert [] + w == w;
  }

  // ---------------------------------------------------------------- contributions of single symbols

  /** What the symbol at index p contributes to the first k symbols. */
  ghost function Part<V(!new)>(sp: Space<V>, m: nat, w: seq<Symbol>, p: nat, k: nat): V
    requires p < |w|
  {
    if p < k then sp.scale(w[p], Pow(sp, m * (k - 1 - p), sp.unit)) else sp.zero
  }

  lemma PartNext<V(!new)>(sp: Space<V>, m: nat, w: seq<Symbol>, p: nat, k: nat)
    requires Lawful(sp) && p < |w| && p != k
    ensures Part(sp, m, w, p, k + 1) == Pow(sp, m, Part(sp, m, w, p, k))
  {
    if p < k {
      var j := k - 1 - p;
      assert m * (j + 1) == m + m * j;
      PowAdd(sp, m, m * j, sp.unit);
      PowLinear(sp, m, w[p], Pow(sp, m * j, sp.unit), sp.unit);
    } else {
      PowOfZero(sp, m);
    }
  }

  /** The places of the nonzero symbols among the first k. */
  function Places(w: seq<Symbol>, k: nat): (ps: seq<nat>)
    requires k <= |w|
    ensures forall i :: 0 <= i < |ps| ==> ps[i] < k && w[ps[i]] != ZERO
    ensures forall i, j :: 0 <= i < j < |ps| ==> ps[i] < ps[j]
    ensures forall p :: 0 <= p < k && w[p] != ZERO ==> p in ps
  {
    if k == 0 then [] else if w[k - 1] == ZERO then Places(w, k - 1) else Places(w, k - 1) + [k - 1]
  }

  /** The contributions of some symbols. */
  ghost function PartSum<V(!new)>(sp: Space<V>, m: nat, w: seq<Symbol>, ps: seq<nat>, k: nat): V
    requires forall i :: 0 <= i < |ps| ==> ps[i] < |w|
  {
    if ps == [] then sp.zero
    else
      var n := |ps| - 1;
      sp.add(PartSum(sp, m, w, ps[..n], k), Part(sp, m, w, ps[n], k))
  }

  lemma {:induction false} PartSumNext<V(!new)>(sp: Space<V>, m: nat, w: seq<Symbol>, ps: seq<nat>, k: nat)
    requires Lawful(sp) && forall i :: 0 <= i < |ps| ==> ps[i] < |w| && ps[i] < k
    ensures PartSum(sp, m, w, ps, k + 1) == Pow(sp, m, PartSum(sp, m, w, ps, k))
    decreases |ps|
  {
    if ps == [] {
      PowOfZero(sp, m);
    } else {
      var n := |ps| - 1;
      PartSumNext(sp, m, w, ps[..n], k);
      PartNext(sp, m, w, ps[n], k);
      PowLinear(sp, m, ZERO, PartSum(sp, m, w, ps[..n], k), Part(sp, m, w, ps[n], k));
    }
  }

  /** The value of a polynomial is the sum of the contributions of its nonzero coefficients. */
  lemma {:induction false} ValueIsPartSum<V(!new)>(sp: Space<V>, m: nat, w: seq<Symbol>, k: nat)
    requires Lawful(sp) && k <= |w|
    ensures Value(sp, m, w[..k]) == PartSum(sp, m, w, Places(w, k), k)
  {
    if k > 0 {
      var n := k - 1;
      ValueIsPartSum(sp, m, w, n);
      NextValue(sp, m, w, n, Places(w, n));
      PlacesNext(w, n);
    } else {
      assert w[..0] == [];
    }
  }

  lemma PlacesNext(w: seq<Symbol>, n: nat)
    requires n < |w|
    ensures Places(w, n + 1) == if w[n] == ZERO then Places(w, n) else Places(w, n) + [n]
  {
  }

  lemma NextValue<V(!new)>(sp: Space<V>, m: nat, w: seq<Symbol>, n: nat, ps: seq<nat>)
    requires Lawful(sp) && n < |w| && (forall i :: 0 <= i < |ps| ==> ps[i] < n) && Value(sp, m, w[..n]) == PartSum(sp, m, w, ps, n)
    ensures Value(sp, m, w[..n + 1]) == PartSum(sp, m, w, if w[n] == ZERO then ps else ps + [n], n + 1)
  {
    assert w[..n + 1] == w[..n] + [w[n]];
    ValueSnoc(sp, m, w[..n], w[n]);
    PartSumNext(sp, m, w, ps, n);
    OneMorePart(sp, m, w, ps, n);
  }

  lemma OneMorePart<V(!new)>(sp: Space<V>, m: nat, w: seq<Symbol>, ps: seq<nat>, n: nat)
    requires Lawful(sp) && n < |w| && forall i :: 0 <= i < |ps| ==> ps[i] < n
    ensures var sum := PartSum(sp, m, w, ps, n + 1);
      sp.add(sum, sp.scale(w[n], sp.unit)) == if w[n] == ZERO then sum else PartSum(sp, m, w, ps + [n], n + 1)
  {
    if w[n] == ZERO {
      assert LinearLaws(sp, ZERO, sp.unit, sp.unit);
      Cancels(sp, PartSum(sp, m, w, ps, n + 1), sp.zero);
    } else {
      assert (ps + [n])[..|ps|] == ps;
      LastPart(sp, m, w, n);
    }
  }

  lemma LastPart<V(!new)>(sp: Space<V>, m: nat, w: seq<Symbol>, n: nat)
    requires n < |w|
    ensures Part(sp, m, w, n, n + 1) == sp.scale(w[n], sp.unit)
  {
    assert m * 0 == 0;
  }

  // ---------------------------------------------------------------- the bound

  /** How often a step of d turns the contribution of place p. */
  function TurnOf(d: nat, length: nat, p: nat): nat
    requires p < length
  {
    d * (length - 1 - p)
  }

  function Turns(d: nat, length: nat, ps: seq<nat>): (fs: seq<nat>)
    requires forall i :: 0 <= i < |ps| ==> ps[i] < length
    ensures |fs| == |ps| && forall i :: 0 <= i < |ps| ==> fs[i] == TurnOf(d, length, ps[i])
  {
    seq(|ps|, i requires 0 <= i < |ps| => TurnOf(d, length, ps[i]))
  }

  /** The contributions at power m. */
  ghost function Terms<V(!new)>(sp: Space<V>, m: nat, w: seq<Symbol>, ps: seq<nat>): (xs: seq<V>)
    requires forall i :: 0 <= i < |ps| ==> ps[i] < |w|
    ensures |xs| == |ps| && forall i :: 0 <= i < |ps| ==> xs[i] == Term(sp, m, w[ps[i]], |w| - 1 - ps[i])
  {
    seq(|ps|, i requires 0 <= i < |ps| => Term(sp, m, w[ps[i]], |w| - 1 - ps[i]))
  }

  /** Going from power m to m + j * d turns each contribution. */
  lemma {:induction false} PartsTurned<V(!new)>(sp: Space<V>, m: nat, d: nat, j: nat, w: seq<Symbol>, ps: seq<nat>)
    requires Lawful(sp) && forall i :: 0 <= i < |ps| ==> ps[i] < |w|
    ensures PartSum(sp, m + j * d, w, ps, |w|) == TurnedSum(sp, j, Turns(d, |w|, ps), Terms(sp, m, w, ps))
    decreases |ps|
  {
    if ps != [] {
      var n := |ps| - 1;
      PartsTurned(sp, m, d, j, w, ps[..n]);
      TurnsInit(d, |w|, ps);
      TermsInit(sp, m, w, ps);
      TermTurned(sp, m, d, j, w[ps[n]], |w| - 1 - ps[n]);
    }
  }

  lemma TurnsInit(d: nat, length: nat, ps: seq<nat>)
    requires ps != [] && forall i :: 0 <= i < |ps| ==> ps[i] < length
    ensures Turns(d, length, ps)[..|ps| - 1] == Turns(d, length, ps[..|ps| - 1])
  {
  }

  lemma TermsInit<V(!new)>(sp: Space<V>, m: nat, w: seq<Symbol>, ps: seq<nat>)
    requires ps != [] && forall i :: 0 <= i < |ps| ==> ps[i] < |w|
    ensures Terms(sp, m, w, ps)[..|ps| - 1] == Terms(sp, m, w, ps[..|ps| - 1])
  {
  }

  lemma TermTurned<V(!new)>(sp: Space<V>, m: nat, d: nat, j: nat, c: Symbol, e: nat)
    requires Lawful(sp)
    ensures Term(sp, m + j * d, c, e) == Pow(sp, j * (d * e), Term(sp, m, c, e))
  {
    Expand(m, j, d, e);
    PowAdd(sp, j * (d * e), m * e, sp.unit);
    PowLinear(sp, j * (d * e), c, Pow(sp, m * e, sp.unit), sp.unit);
  }

  lemma Expand(m: nat, j: nat, d: nat, e: nat)
    ensures (m + j * d) * e == j * (d * e) + m * e
  {
    assert (m + j * d) * e == m * e + (j * d) * e;
    assert (j * d) * e == j * (d * e);
  }

  /** Steps of d distinguish all places of a window. */
  ghost predicate Distinguishes(d: nat, period: nat, length: nat)
    requires period > 0
  {
    forall e: nat, f: nat :: e < f < length ==> (d * e) % period != (d * f) % period
  }

  ghost predicate ZeroAt<V(!new)>(sp: Space<V>, m: nat, d: nat, j: nat, w: seq<Symbol>) {
    Value(sp, m + j * d, w) == sp.zero
  }

  /**
   The BCH bound: a polynomial with at most n nonzero coefficients that vanishes at n powers at
   equal distances is zero, if these distances distinguish its places.
   */
  lemma ErrorBound<V(!new)>(sp: Space<V>, period: nat, m: nat, d: nat, w: seq<Symbol>, n: nat)
    requires Lawful(sp) && HasPeriod(sp, period) && sp.unit != sp.zero && Distinguishes(d, period, |w|)
    requires |Places(w, |w|)| <= n && forall j: nat {:trigger ZeroAt(sp, m, d, j, w)} :: j < n ==> ZeroAt(sp, m, d, j, w)
    ensures w == Zeros(|w|)
  {
    var ps := Places(w, |w|);
    var fs, xs := Turns(d, |w|, ps), Terms(sp, m, w, ps);
    forall j: nat | j < |ps| ensures Vanishes(sp, j, fs, xs) {
      assert ZeroAt(sp, m, d, j, w);
      SumVanishes(sp, m, d, j, w);
    }
    TurnsApart(d, period, w, ps);
    AllVanish(sp, period, fs, xs);
    if ps != [] {
      assert xs[0] == sp.zero;
      TermNotZero(sp, period, m, w[ps[0]], |w| - 1 - ps[0]);
    }
  }

  lemma SumVanishes<V(!new)>(sp: Space<V>, m: nat, d: nat, j: nat, w: seq<Symbol>)
    requires Lawful(sp) && Value(sp, m + j * d, w) == sp.zero
    ensures var ps := Places(w, |w|); Vanishes(sp, j, Turns(d, |w|, ps), Terms(sp, m, w, ps))
  {
    assert w[..|w|] == w;
    ValueIsPartSum(sp, m + j * d, w, |w|);
    PartsTurned(sp, m, d, j, w, Places(w, |w|));
  }

  lemma TurnsApart(d: nat, period: nat, w: seq<Symbol>, ps: seq<nat>)
    requires period > 0 && Distinguishes(d, period, |w|) && ps == Places(w, |w|)
    ensures Apart(Turns(d, |w|, ps), period)
  {
    var fs := Turns(d, |w|, ps);
    forall i, k | 0 <= i < k < |fs| ensures fs[i] % period != fs[k] % period {
      var e: nat, f: nat := |w| - 1 - ps[k], |w| - 1 - ps[i];
      assert e < f < |w|;
    }
  }

  ghost function Term<V(!new)>(sp: Space<V>, m: nat, c: Symbol, e: nat): V {
    sp.scale(c, Pow(sp, m * e, sp.unit))
  }

  lemma TermNotZero<V(!new)>(sp: Space<V>, period: nat, m: nat, c: Symbol, e: nat)
    requires Lawful(sp) && HasPeriod(sp, period) && sp.unit != sp.zero && Term(sp, m, c, e) == sp.zero
    ensures c == ZERO
  {
    UnitTurned(sp, period, m * e);
    assert LinearLaws(sp, c, Pow(sp, m * e, sp.unit), sp.unit);
  }

  lemma {:induction false} UnitTurned<V(!new)>(sp: Space<V>, period: nat, k: nat)
    requires Lawful(sp) && HasPeriod(sp, period) && sp.unit != sp.zero
    ensures Pow(sp, k, sp.unit) != sp.zero
  {
    if k > 0 {
      UnitTurned(sp, period, k - 1);
      var x := Pow(sp, k - 1, sp.unit);
      if sp.turn(x) == sp.zero {
        PowOfZero(sp, 1);
        assert Pow(sp, 1, x) == sp.turn(Pow(sp, 0, x)) && Pow(sp, 1, sp.zero) == sp.turn(Pow(sp, 0, sp.zero));
        PowInjective(sp, period, 1, x, sp.zero);
      }
    }
  }

  // ---------------------------------------------------------------- errors

  /** Where two strings differ. */
  ghost function Differences(xs: seq<Symbol>, ys: seq<Symbol>): set<nat>
    requires |xs| == |ys|
  {
    set i: nat | i < |xs| && xs[i] != ys[i]
  }

  ghost function NonzeroBelow(w: seq<Symbol>, k: nat): set<nat>
    requires k <= |w|
  {
    set i: nat | i < k && w[i] != ZERO
  }

  function CountNonzero(w: seq<Symbol>, k: nat): nat
    requires k <= |w|
  {
    if k == 0 then 0 else CountNonzero(w, k - 1) + if w[k - 1] == ZERO then 0 else 1
  }

  lemma {:induction false} PlacesCount(w: seq<Symbol>, k: nat)
    requires k <= |w|
    ensures |Places(w, k)| == CountNonzero(w, k)
  {
    if k > 0 {
      PlacesCount(w, k - 1);
      PlacesNext(w, k - 1);
    }
  }

  lemma {:induction false} NonzeroCount(w: seq<Symbol>, k: nat)
    requires k <= |w|
    ensures |NonzeroBelow(w, k)| == CountNonzero(w, k)
  {
    if k == 0 {
      NothingBelow(w);
    } else {
      NonzeroCount(w, k - 1);
      OneMoreNonzero(w, k - 1);
    }
  }

  lemma NothingBelow(w: seq<Symbol>)
    ensures NonzeroBelow(w, 0) == {}
  {
  }

  lemma OneMoreNonzero(w: seq<Symbol>, n: nat)
    requires n < |w|
    ensures |NonzeroBelow(w, n + 1)| == |NonzeroBelow(w, n)| + if w[n] == ZERO then 0 else 1
  {
    var a, b := NonzeroBelow(w, n), NonzeroBelow(w, n + 1);
    forall i: nat ensures i in b <==> i in a || (i == n && w[n] != ZERO) {
    }
    if w[n] == ZERO {
      SameMembers(a, b);
    } else {
      Joined(a, b, n);
    }
  }

  lemma SameMembers<T>(a: set<T>, b: set<T>)
    requires forall x :: x in a <==> x in b
    ensures a == b
  {
  }

  lemma Joined<T>(a: set<T>, b: set<T>, x: T)
    requires x !in a && forall y :: y in b <==> y in a || y == x
    ensures |b| == |a| + 1
  {
    assert b == a + {x};
  }

  lemma DifferencesCount(xs: seq<Symbol>, ys: seq<Symbol>)
    requires |xs| == |ys|
    ensures var w := XorAll(xs, ys); |Places(w, |w|)| == |Differences(xs, ys)| && (w == Zeros(|w|) ==> xs == ys)
  {
    var w := XorAll(xs, ys);
    XorAllSelf(xs, ys);
    PlacesCount(w, |w|);
    NonzeroCount(w, |w|);
    forall i: nat | i < |xs| ensures w[i] == ZERO <==> xs[i] == ys[i] {
      XorCancels(xs[i], ys[i]);
      XorUnit(xs[i], ys[i]);
    }
    assert NonzeroBelow(w, |w|) == Differences(xs, ys);
  }

  ghost predicate RootAt<V(!new)>(sp: Space<V>, m: nat, d: nat, j: nat, gen: Residue) {
    IsRoot(sp, m + j * d, gen)
  }

  /** The generator has n roots at distances of d. */
  ghost predicate HasRoots<V(!new)>(sp: Space<V>, m: nat, d: nat, n: nat, gen: Residue) {
    forall j: nat {:trigger RootAt(sp, m, d, j, gen)} :: j < n ==> RootAt(sp, m, d, j, gen)
  }

  /** Up to as many changed symbols as there are such roots always change the remainder. */
  lemma ErrorsDetected<V(!new)>(sp: Space<V>, period: nat, m: nat, d: nat, n: nat, t: Tables, gen: Residue,
                                before: seq<Symbol>, xs: seq<Symbol>, ys: seq<Symbol>, after: seq<Symbol>)
    requires Lawful(sp) && HasPeriod(sp, period) && sp.unit != sp.zero && AreTables(t) && IsGenerator(gen) && HasRoots(sp, m, d, n, gen)
    requires |xs| == |ys| && Distinguishes(d, period, |xs|) && xs != ys && |Differences(xs, ys)| <= n
    ensures Remainder(t, gen, before + xs + after) != Remainder(t, gen, before + ys + after)
  {
    var w := XorAll(xs, ys);
    DifferencesCount(xs, ys);
    WindowDifference(t, gen, before, xs, ys, after);
    if Run(t, gen, Zeros(|gen|), w) == Zeros(|gen|) {
      VanishesAtRoots(sp, m, d, n, t, gen, w);
      ErrorBound(sp, period, m, d, w, n);
    }
  }

  lemma VanishesAtRoots<V(!new)>(sp: Space<V>, m: nat, d: nat, n: nat, t: Tables, gen: Residue, w: seq<Symbol>)
    requires Lawful(sp) && AreTables(t) && |gen| > 0 && HasRoots(sp, m, d, n, gen) && Run(t, gen, Zeros(|gen|), w) == Zeros(|gen|)
    ensures forall j: nat {:trigger ZeroAt(sp, m, d, j, w)} :: j < n ==> ZeroAt(sp, m, d, j, w)
  {
    forall j: nat | j < n ensures ZeroAt(sp, m, d, j, w) {
      assert RootAt(sp, m, d, j, gen);
      VanishesAtRoot(sp, m + j * d, t, gen, w);
    }
  }
}
