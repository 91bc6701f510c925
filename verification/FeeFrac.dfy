/**
 Fee/size pairs and the lines they are compared against (src/util/feefrac.h).

 A `FeeFrac` is a point (size, fee). All reasoning about feerates goes through
 `Value(x, s)`, the height of the point `x` above the line of slope `s` through the origin:
 it is additive in `x`, and "x has a higher feerate than c" is `Value(x, SlopeOf(c)) > 0`.
 */
module FeeFracs {

  /**
   FeeFrac::Mul. Defined by repeated addition, so that proofs about comparisons go through the
   lemmas of this module and only those (through MulIs) see a product of variables.
   */
  function Mul(a: int, b: int): int
    decreases if b < 0 then -b else b
  {
    if b == 0 then 0 else if b > 0 then Mul(a, b - 1) + a else Mul(a, b + 1) - a
  }

  lemma {:induction false} MulIs(a: int, b: int)
    ensures Mul(a, b) == a * b
    decreases if b < 0 then -b else b
  {
    if b > 0 {
      MulIs(a, b - 1);
    } else if b < 0 {
      MulIs(a, b + 1);
    }
  }

  datatype FeeFrac = FeeFrac(fee: int, size: int) {

    predicate IsEmpty() {
      size == 0
    }

    function Add(o: FeeFrac): FeeFrac {
      FeeFrac(fee + o.fee, size + o.size)
    }

    function Sub(o: FeeFrac): FeeFrac {
      FeeFrac(fee - o.fee, size - o.size)
    }

    function Negate(): FeeFrac {
      FeeFrac(-fee, size)
    }

    /** operator>>: strictly higher feerate; the empty FeeFrac is neither higher nor lower. */
    predicate Higher(o: FeeFrac) {
      Mul(fee, o.size) > Mul(o.fee, size)
    }

    /** operator<<: strictly lower feerate. */
    predicate Lower(o: FeeFrac) {
      Mul(fee, o.size) < Mul(o.fee, size)
    }

    /** operator>: strictly higher feerate, or equal feerate and smaller size. */
    predicate Better(o: FeeFrac) {
      Mul(fee, o.size) > Mul(o.fee, size) || (Mul(fee, o.size) == Mul(o.fee, size) && size < o.size)
    }

    /** operator<=, the negation of operator> in a strong order. */
    predicate AtMost(o: FeeFrac) {
      !Better(o)
    }

    /** operator>=. */
    predicate AtLeast(o: FeeFrac) {
      Better(o) || (Mul(fee, o.size) == Mul(o.fee, size) && size == o.size)
    }
  }

  const Empty := FeeFrac(0, 0)

  /** The slope num/den of a line. */
  datatype Line = Line(num: int, den: int)

  type Slope = s: Line | s.den > 0 witness Line(0, 1)

  /** den times the height of the point x above the line of slope s through the origin. */
  function Value(x: FeeFrac, s: Slope): (v: int)
    ensures x == Empty ==> v == 0
  {
    MulIs(x.fee, s.den);
    MulIs(s.num, x.size);
    Mul(x.fee, s.den) - Mul(s.num, x.size)
  }

  lemma ValueIs(x: FeeFrac, s: Slope)
    ensures Value(x, s) == s.den * x.fee - s.num * x.size
  {
    MulIs(x.fee, s.den);
    MulIs(s.num, x.size);
  }

  function SlopeOf(c: FeeFrac): Slope
    requires c.size > 0
  {
    Line(c.fee, c.size)
  }

  lemma ValueAdd(a: FeeFrac, b: FeeFrac, s: Slope)
    ensures Value(a.Add(b), s) == Value(a, s) + Value(b, s)
  {
    ValueIs(a, s);
    ValueIs(b, s);
    ValueIs(a.Add(b), s);
  }

  lemma ValueNegate(x: FeeFrac, s: Slope)
    ensures Value(x.Negate(), Line(-s.num, s.den)) == -Value(x, s)
  {
    ValueIs(x, s);
    ValueIs(x.Negate(), Line(-s.num, s.den));
  }

  /** Comparing by feerate is comparing against the line through one of the two points. */
  lemma HigherIsAbove(x: FeeFrac, c: FeeFrac)
    requires c.size > 0
    ensures x.Higher(c) <==> Value(x, SlopeOf(c)) > 0
    ensures x.Lower(c) <==> Value(x, SlopeOf(c)) < 0
  {
  }

  /** The identity behind every change of reference line. */
  lemma Pivot(c: FeeFrac, y: FeeFrac, s: Slope)
    requires c.size > 0
    ensures c.size * Value(y, s) == s.den * Value(y, SlopeOf(c)) + y.size * Value(c, s)
  {
    var q, p := s.den, s.num;
    ValueIs(y, s);
    ValueIs(y, SlopeOf(c));
    ValueIs(c, s);
    calc {
      q * Value(y, SlopeOf(c)) + y.size * Value(c, s);
      q * (c.size * y.fee - c.fee * y.size) + y.size * (q * c.fee - p * c.size);
      q * (c.size * y.fee) - q * (c.fee * y.size) + y.size * (q * c.fee) - y.size * (p * c.size);
      { assert q * (c.fee * y.size) == y.size * (q * c.fee); }
      q * (c.size * y.fee) - y.size * (p * c.size);
      { assert q * (c.size * y.fee) == c.size * (q * y.fee); assert y.size * (p * c.size) == c.size * (p * y.size); }
      c.size * (q * y.fee) - c.size * (p * y.size);
      c.size * (q * y.fee - p * y.size);
    }
  }

  lemma NonNegFactor(a: int, b: int)
    requires a > 0 && a * b >= 0
    ensures b >= 0
  {
  }

  lemma PosFactor(a: int, b: int)
    requires a > 0 && a * b > 0
    ensures b > 0
  {
  }

  /** A point on or above c's line lies on or above every line that c lies on or above. */
  lemma AboveStays(c: FeeFrac, y: FeeFrac, s: Slope)
    requires c.size > 0 && y.size >= 0
    requires Value(y, SlopeOf(c)) >= 0 && Value(c, s) >= 0
    ensures Value(y, s) >= 0
  {
    Pivot(c, y, s);
    assert s.den * Value(y, SlopeOf(c)) >= 0;
    assert y.size * Value(c, s) >= 0;
    NonNegFactor(c.size, Value(y, s));
  }

  lemma AboveStaysStrictly(c: FeeFrac, y: FeeFrac, s: Slope)
    requires c.size > 0 && y.size >= 0
    requires Value(y, SlopeOf(c)) > 0 && Value(c, s) >= 0
    ensures Value(y, s) > 0
  {
    Pivot(c, y, s);
    assert s.den * Value(y, SlopeOf(c)) > 0;
    assert y.size * Value(c, s) >= 0;
    PosFactor(c.size, Value(y, s));
  }

  /** The mirror image: on or below c's line stays on or below every line that c is on or below. */
  lemma BelowStays(c: FeeFrac, y: FeeFrac, s: Slope)
    requires c.size > 0 && y.size >= 0
    requires Value(y, SlopeOf(c)) <= 0 && Value(c, s) <= 0
    ensures Value(y, s) <= 0
  {
    ValueNegate(y, SlopeOf(c));
    ValueNegate(c, s);
    ValueNegate(y, s);
    AboveStays(c.Negate(), y.Negate(), Line(-s.num, s.den));
  }

  lemma BelowStaysStrictly(c: FeeFrac, y: FeeFrac, s: Slope)
    requires c.size > 0 && y.size >= 0
    requires Value(y, SlopeOf(c)) < 0 && Value(c, s) <= 0
    ensures Value(y, s) < 0
  {
    ValueNegate(y, SlopeOf(c));
    ValueNegate(c, s);
    ValueNegate(y, s);
    AboveStaysStrictly(c.Negate(), y.Negate(), Line(-s.num, s.den));
  }

  /** Feerate comparison is transitive on nonempty points. */
  lemma HigherTrans(a: FeeFrac, b: FeeFrac, c: FeeFrac)
    requires a.size > 0 && b.size > 0 && c.size > 0
    ensures a.Higher(b) && !c.Higher(b) ==> a.Higher(c)
    ensures !b.Higher(a) && b.Higher(c) ==> a.Higher(c)
    ensures !b.Higher(a) && !c.Higher(b) ==> !c.Higher(a)
  {
    if a.Higher(b) && !c.Higher(b) {
      AboveStaysStrictly(b, a, SlopeOf(c));
    }
    if !b.Higher(a) && b.Higher(c) {
      if !a.Higher(c) { AboveStaysStrictly(c, b, SlopeOf(a)); }
    }
    if !b.Higher(a) && !c.Higher(b) {
      if c.Higher(a) { AboveStaysStrictly(a, c, SlopeOf(b)); }
    }
  }

  /** The sum of two points lies strictly between them when their feerates differ. */
  lemma SumBetween(a: FeeFrac, b: FeeFrac)
    requires a.size > 0 && b.size > 0 && b.Higher(a)
    ensures a.Lower(a.Add(b)) && b.Higher(a.Add(b))
  {
    var t := a.Add(b);
    ValueAdd(a, b, SlopeOf(t));
    HigherIsAbove(a, t);
    HigherIsAbove(b, t);
    if Value(a, SlopeOf(t)) >= 0 {
      AboveStaysStrictly(a, b, SlopeOf(t));
    }
  }

  lemma LowerTrans(p: FeeFrac, a: FeeFrac, t: FeeFrac)
    requires p.size >= 0 && a.size > 0 && t.size > 0
    requires p.Lower(a) && a.Lower(t)
    ensures p.Lower(t)
  {
    HigherIsAbove(p, a);
    HigherIsAbove(a, t);
    BelowStaysStrictly(a, p, SlopeOf(t));
    HigherIsAbove(p, t);
  }

  /** Cutting off a tail that lies above the total leaves something below the total. */
  lemma CutTail(a: FeeFrac, b1: FeeFrac, b2: FeeFrac)
    requires a.size > 0 && b1.size > 0 && b2.size > 0
    requires b1.Lower(b1.Add(b2)) && b1.Add(b2).Higher(a)
    ensures a.Add(b1).Lower(a.Add(b1.Add(b2)))
  {
    var b := b1.Add(b2);
    var t := a.Add(b);
    var s := SlopeOf(t);
    SumBetween(a, b);
    HigherIsAbove(b, t);
    HigherIsAbove(b1, b);
    ValueAdd(b1, b2, SlopeOf(b));
    AboveStaysStrictly(b, b2, s);
    ValueAdd(a.Add(b1), b2, s);
    assert t == a.Add(b1).Add(b2);
    HigherIsAbove(a.Add(b1), t);
  }

  // ---------------------------------------------------------------- the strong order

  /** operator> in terms of the other point's line. */
  lemma BetterIsAbove(x: FeeFrac, c: FeeFrac)
    requires c.size > 0
    ensures x.Better(c) <==> Value(x, SlopeOf(c)) > 0 || (Value(x, SlopeOf(c)) == 0 && x.size < c.size)
  {
  }

  lemma OnLineStays(c: FeeFrac, y: FeeFrac, s: Slope)
    requires c.size > 0 && y.size > 0 && Value(y, SlopeOf(c)) == 0
    ensures Value(c, s) > 0 ==> Value(y, s) > 0
    ensures Value(c, s) == 0 ==> Value(y, s) == 0
    ensures Value(c, s) < 0 ==> Value(y, s) < 0
  {
    Pivot(c, y, s);
    var v := Value(y, s);
    assert c.size * v == y.size * Value(c, s);
    if Value(c, s) > 0 {
      assert y.size * Value(c, s) > 0;
      PosFactor(c.size, v);
    } else if Value(c, s) < 0 {
      assert y.size * (-Value(c, s)) > 0;
      assert c.size * (-v) > 0;
      PosFactor(c.size, -v);
    }
  }

  lemma BetterTrans(a: FeeFrac, b: FeeFrac, c: FeeFrac)
    requires a.size > 0 && b.size > 0 && c.size > 0
    requires a.Better(b) && b.Better(c)
    ensures a.Better(c)
  {
    BetterIsAbove(a, b);
    BetterIsAbove(b, c);
    BetterIsAbove(a, c);
    if Value(a, SlopeOf(b)) > 0 {
      AboveStaysStrictly(b, a, SlopeOf(c));
    } else {
      OnLineStays(b, a, SlopeOf(c));
    }
  }

  /** Neither better than the other: the same point. */
  lemma BetterTotal(a: FeeFrac, b: FeeFrac)
    requires a.size > 0 && b.size > 0 && !a.Better(b) && !b.Better(a)
    ensures a == b
  {
    MulIs(a.fee, b.size);
    MulIs(b.fee, a.size);
    assert a.fee * b.size == b.fee * a.size && a.size == b.size;
    SameFactor(a.fee, b.fee, a.size);
  }

  lemma SameFactor(x: int, y: int, d: int)
    requires d > 0 && x * d == y * d
    ensures x == y
  {
  }

  /** a > b and b >= c give a > c. */
  lemma BetterThanAtMost(a: FeeFrac, b: FeeFrac, c: FeeFrac)
    requires a.size > 0 && b.size > 0 && c.size > 0
    requires a.Better(b) && !c.Better(b)
    ensures a.Better(c)
  {
    if b.Better(c) {
      BetterTrans(a, b, c);
    } else {
      BetterTotal(b, c);
    }
  }

  /** a >= b and b >= c give a >= c. */
  lemma AtLeastTrans(a: FeeFrac, b: FeeFrac, c: FeeFrac)
    requires a.size > 0 && b.size > 0 && c.size > 0
    requires !b.Better(a) && !c.Better(b)
    ensures !c.Better(a)
  {
    if c.Better(a) {
      BetterThanAtMost(c, a, b);
    }
  }
}
