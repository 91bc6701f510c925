/**
 Checksums as remainders of polynomials over GF(32) (src/codex32.cpp:115-201): creating one always
 makes the whole verify, and a change within as many consecutive symbols as the checksum has never
 goes unnoticed, at any length.
 */
module Checksums {
  import opened Gf32

  type Residue = seq<Symbol>

  function Zeros(n: nat): (z: seq<Symbol>)
    ensures |z| == n
  {
    seq(n, _ => ZERO)
  }

  function XorAll(a: seq<Symbol>, b: seq<Symbol>): (c: seq<Symbol>)
    requires |a| == |b|
    ensures |c| == |a|
  {
    seq(|a|, i requires 0 <= i < |a| => Xor(a[i], b[i]))
  }

  /** A generator: the coefficients below the leading one; the last is not zero. */
  ghost predicate IsGenerator(gen: Residue) {
    |gen| > 0 && gen[|gen| - 1] != ZERO
  }

  /** Coefficient i after multiplying by x, adding v and reducing. */
  function StepAt(t: Tables, gen: Residue, res: Residue, v: Symbol, i: nat): Symbol
    requires AreTables(t) && |gen| == |res| && i < |res|
  {
    Xor(if i + 1 < |res| then res[i + 1] else v, Mul(t, gen[i], res[0]))
  }

  /** One more symbol. */
  function Step(t: Tables, gen: Residue, res: Residue, v: Symbol): (r: Residue)
    requires AreTables(t) && |gen| == |res|
    ensures |r| == |res|
  {
    seq(|res|, i requires 0 <= i < |res| => StepAt(t, gen, res, v, i))
  }

  function Run(t: Tables, gen: Residue, res: Residue, vs: seq<Symbol>): (r: Residue)
    requires AreTables(t) && |gen| == |res|
    ensures |r| == |res|
    decreases |vs|
  {
    if vs == [] then res else Run(t, gen, Step(t, gen, res, vs[0]), vs[1..])
  }

  function Start(gen: Residue): (r: Residue)
    requires |gen| > 0
    ensures |r| == |gen|
  {
    Zeros(|gen| - 1) + [ONE]
  }

  /** The remainder of the symbols, with an implicit one in front. */
  function Remainder(t: Tables, gen: Residue, vs: seq<Symbol>): (r: Residue)
    requires AreTables(t) && |gen| > 0
    ensures |r| == |gen|
  {
    Run(t, gen, Start(gen), vs)
  }

  // ---------------------------------------------------------------- linearity

  lemma StepLinear(t: Tables, gen: Residue, a: Residue, b: Residue, u: Symbol, v: Symbol)
    requires AreTables(t) && |gen| == |a| == |b| && |a| > 0
    ensures Step(t, gen, XorAll(a, b), Xor(u, v)) == XorAll(Step(t, gen, a, u), Step(t, gen, b, v))
  {
    var c := XorAll(a, b);
    forall i: nat | i < |a| ensures StepAt(t, gen, c, Xor(u, v), i) == Xor(StepAt(t, gen, a, u, i), StepAt(t, gen, b, v, i)) {
      StepAtLinear(t, gen, a, b, u, v, i);
    }
  }

  lemma StepAtLinear(t: Tables, gen: Residue, a: Residue, b: Residue, u: Symbol, v: Symbol, i: nat)
    requires AreTables(t) && |gen| == |a| == |b| && i < |a|
    ensures StepAt(t, gen, XorAll(a, b), Xor(u, v), i) == Xor(StepAt(t, gen, a, u, i), StepAt(t, gen, b, v, i))
  {
    var p, q := if i + 1 < |a| then a[i + 1] else u, if i + 1 < |b| then b[i + 1] else v;
    MulLinear(t, gen[i], a[0], b[0]);
    XorSwap(p, q, Mul(t, gen[i], a[0]), Mul(t, gen[i], b[0]));
  }

  lemma {:induction false} RunLinear(t: Tables, gen: Residue, a: Residue, b: Residue, us: seq<Symbol>, vs: seq<Symbol>)
    requires AreTables(t) && |gen| == |a| == |b| && |a| > 0 && |us| == |vs|
    ensures Run(t, gen, XorAll(a, b), XorAll(us, vs)) == XorAll(Run(t, gen, a, us), Run(t, gen, b, vs))
    decreases |us|
  {
    if us != [] {
      StepLinear(t, gen, a, b, us[0], vs[0]);
      assert XorAll(us, vs)[1..] == XorAll(us[1..], vs[1..]);
      RunLinear(t, gen, Step(t, gen, a, us[0]), Step(t, gen, b, vs[0]), us[1..], vs[1..]);
    }
  }

  lemma {:induction false} RunConcat(t: Tables, gen: Residue, res: Residue, us: seq<Symbol>, vs: seq<Symbol>)
    requires AreTables(t) && |gen| == |res|
    ensures Run(t, gen, res, us + vs) == Run(t, gen, Run(t, gen, res, us), vs)
    decreases |us|
  {
    if us == [] {
      assert us + vs == vs;
    } else {
      assert (us + vs)[1..] == us[1..] + vs;
      RunConcat(t, gen, Step(t, gen, res, us[0]), us[1..], vs);
    }
  }

  lemma XorAllSelf(a: seq<Symbol>, b: seq<Symbol>)
    requires |a| == |b|
    ensures XorAll(a, a) == Zeros(|a|) && XorAll(a, Zeros(|a|)) == a && XorAll(Zeros(|a|), a) == a
    ensures XorAll(a, XorAll(a, b)) == b
    ensures XorAll(a, b) == Zeros(|a|) ==> a == b
  {
    forall i | 0 <= i < |a| ensures Xor(a[i], a[i]) == ZERO && Xor(a[i], ZERO) == a[i] && Xor(ZERO, a[i]) == a[i] && Xor(a[i], Xor(a[i], b[i])) == b[i] {
      XorUnit(a[i], b[i]);
      XorCancels(a[i], b[i]);
    }
    if XorAll(a, b) == Zeros(|a|) {
      forall i | 0 <= i < |a| ensures a[i] == b[i] {
        assert XorAll(a, b)[i] == ZERO;
        XorCancels(a[i], b[i]);
      }
    }
  }

  // ---------------------------------------------------------------- nothing is lost

  /** A remainder other than zero stays other than zero. */
  lemma StepInjective(t: Tables, gen: Residue, res: Residue)
    requires AreTables(t) && IsGenerator(gen) && |gen| == |res| && Step(t, gen, res, ZERO) == Zeros(|res|)
    ensures res == Zeros(|res|)
  {
    var n := |res|;
    assert StepAt(t, gen, res, ZERO, n - 1) == Step(t, gen, res, ZERO)[n - 1] == ZERO;
    XorUnit(Mul(t, gen[n - 1], res[0]), ZERO);
    MulIsProduct(t, gen[n - 1], res[0]);
    forall i | 0 <= i < n ensures res[i] == ZERO {
      if i > 0 {
        assert StepAt(t, gen, res, ZERO, i - 1) == Step(t, gen, res, ZERO)[i - 1] == ZERO;
        XorUnit(res[i], ZERO);
      }
    }
  }

  lemma {:induction false} RunInjective(t: Tables, gen: Residue, res: Residue, n: nat)
    requires AreTables(t) && IsGenerator(gen) && |gen| == |res| && Run(t, gen, res, Zeros(n)) == Zeros(|res|)
    ensures res == Zeros(|res|)
    decreases n
  {
    if n > 0 {
      assert Zeros(n)[1..] == Zeros(n - 1);
      RunInjective(t, gen, Step(t, gen, res, ZERO), n - 1);
      StepInjective(t, gen, res);
    }
  }

  /** From zero, up to as many symbols as the checksum has are just remembered. */
  lemma {:induction false} Remembers(t: Tables, gen: Residue, xs: seq<Symbol>)
    requires AreTables(t) && |gen| > 0 && |xs| <= |gen|
    ensures Run(t, gen, Zeros(|gen|), xs) == Zeros(|gen| - |xs|) + xs
    decreases |xs|
  {
    var n, k := |gen|, |xs|;
    if k == 0 {
      assert Zeros(n) + xs == Zeros(n);
    } else {
      var init, x := xs[..k - 1], xs[k - 1];
      assert xs == init + [x];
      Remembers(t, gen, init);
      RunConcat(t, gen, Zeros(n), init, [x]);
      var res := Zeros(n - k + 1) + init;
      assert Run(t, gen, res, [x]) == Step(t, gen, res, x);
      forall i: nat | i < n ensures Step(t, gen, res, x)[i] == (Zeros(n - k) + xs)[i] {
        MulIsProduct(t, gen[i], ZERO);
        XorUnit(if i + 1 < n then res[i + 1] else x, ZERO);
      }
    }
  }

  // ---------------------------------------------------------------- the two guarantees

  /** The symbols to append so that the remainder becomes target. */
  function Checksum(t: Tables, gen: Residue, target: Residue, payload: seq<Symbol>): (c: Residue)
    requires AreTables(t) && |gen| > 0 && |target| == |gen|
    ensures |c| == |gen|
  {
    XorAll(Remainder(t, gen, payload + Zeros(|gen|)), target)
  }

  /** A payload followed by its checksum verifies. */
  lemma ChecksumVerifies(t: Tables, gen: Residue, target: Residue, payload: seq<Symbol>)
    requires AreTables(t) && |gen| > 0 && |target| == |gen|
    ensures Remainder(t, gen, payload + Checksum(t, gen, target, payload)) == target
  {
    var n, c := |gen|, Checksum(t, gen, target, payload);
    var r, z := Run(t, gen, Start(gen), payload), Zeros(|gen|);
    RunConcat(t, gen, Start(gen), payload, z);
    RunConcat(t, gen, Start(gen), payload, c);
    XorAllSelf(r, r);
    XorAllSelf(c, c);
    RunLinear(t, gen, r, z, z, c);
    Remembers(t, gen, c);
    assert Zeros(0) + c == c;
    XorAllSelf(Run(t, gen, r, z), target);
  }

  /**
   Two messages that agree except within a window no longer than the checksum never have the same
   remainder.
   */
  lemma BurstDetected(t: Tables, gen: Residue, before: seq<Symbol>, xs: seq<Symbol>, ys: seq<Symbol>, after: seq<Symbol>)
    requires AreTables(t) && IsGenerator(gen) && |xs| == |ys| <= |gen| && xs != ys
    ensures Remainder(t, gen, before + xs + after) != Remainder(t, gen, before + ys + after)
  {
    Remembers(t, gen, XorAll(xs, ys));
    WindowDifference(t, gen, before, xs, ys, after);
    if Run(t, gen, Zeros(|gen|), XorAll(xs, ys)) == Zeros(|gen|) {
      WindowZero(xs, ys, |gen|);
    }
  }

  /** If the remainders agree, the difference of the windows leaves none. */
  lemma WindowDifference(t: Tables, gen: Residue, before: seq<Symbol>, xs: seq<Symbol>, ys: seq<Symbol>, after: seq<Symbol>)
    requires AreTables(t) && IsGenerator(gen) && |xs| == |ys|
    ensures Remainder(t, gen, before + xs + after) == Remainder(t, gen, before + ys + after) ==>
      Run(t, gen, Zeros(|gen|), XorAll(xs, ys)) == Zeros(|gen|)
  {
    var r := Run(t, gen, Start(gen), before);
    var a, b := Run(t, gen, r, xs), Run(t, gen, r, ys);
    SplitRun(t, gen, before, xs, after);
    SplitRun(t, gen, before, ys, after);
    if Run(t, gen, a, after) == Run(t, gen, b, after) {
      // the difference after the window runs to zero, so it was zero
      XorAllSelf(after, after);
      RunLinear(t, gen, a, b, after, after);
      XorAllSelf(Run(t, gen, a, after), Run(t, gen, b, after));
      RunInjective(t, gen, XorAll(a, b), |after|);
      // but it is the difference of the windows
      XorAllSelf(r, r);
      RunLinear(t, gen, r, r, xs, ys);
    }
  }

  lemma SplitRun(t: Tables, gen: Residue, before: seq<Symbol>, xs: seq<Symbol>, after: seq<Symbol>)
    requires AreTables(t) && |gen| > 0
    ensures Remainder(t, gen, before + xs + after) == Run(t, gen, Run(t, gen, Run(t, gen, Start(gen), before), xs), after)
  {
    RunConcat(t, gen, Start(gen), before + xs, after);
    RunConcat(t, gen, Start(gen), before, xs);
  }

  lemma WindowZero(xs: seq<Symbol>, ys: seq<Symbol>, n: nat)
    requires |xs| == |ys| <= n && Zeros(n - |xs|) + XorAll(xs, ys) == Zeros(n)
    ensures xs == ys
  {
    var k := n - |xs|;
    forall i | 0 <= i < |xs| ensures XorAll(xs, ys)[i] == ZERO {
      assert (Zeros(k) + XorAll(xs, ys))[k + i] == Zeros(n)[k + i];
    }
    assert XorAll(xs, ys) == Zeros(|xs|);
    XorAllSelf(xs, ys);
  }
}
