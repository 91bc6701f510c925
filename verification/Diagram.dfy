/**
 Feerate diagrams and when one linearization is at least as good as another.

 `DiagramAt` is the curve that CompareChunks (src/util/feefrac.cpp) compares: it starts at the
 origin, follows the chunks' cumulative fee over cumulative size, and is flat after the last one.

 Proofs work with the dual view: for every slope, `MaxPrefix` is how far the best prefix of the
 linearization rises above the line of that slope. One diagram is nowhere below another exactly
 when its MaxPrefix is at least the other's for every slope (`DominatesIffDiagram`).
 */
module Diagrams {
  import opened Numbers
  import opened FeeFracs
  import opened TxSets
  import opened Chunking

  // ---------------------------------------------------------------- the dual view

  /** The largest Value of any prefix of l, the empty one included. */
  function MaxPrefix(r: Rates, l: seq<nat>, s: Slope): (m: int)
    ensures m >= 0
  {
    if l == [] then 0 else Max(0, Value(At(r, l[0]), s) + MaxPrefix(r, l[1..], s))
  }

  ghost predicate AsHigh(r: Rates, a: seq<nat>, b: seq<nat>, s: Slope) {
    MaxPrefix(r, a, s) >= MaxPrefix(r, b, s)
  }

  /** a is at least as good as b: no line separates b's best prefix from a's. */
  ghost predicate Dominates(r: Rates, a: seq<nat>, b: seq<nat>) {
    forall s: Slope :: AsHigh(r, a, b, s)
  }

  lemma {:induction false} MaxPrefixConcat(r: Rates, a: seq<nat>, b: seq<nat>, s: Slope)
    ensures MaxPrefix(r, a + b, s) ==
            Max(MaxPrefix(r, a, s), Value(SeqSum(r, a), s) + MaxPrefix(r, b, s))
  {
    if a == [] {
      assert a + b == b;
    } else {
      assert (a + b)[1..] == a[1..] + b;
      MaxPrefixConcat(r, a[1..], b, s);
      ValueAdd(At(r, a[0]), SeqSum(r, a[1..]), s);
    }
  }

  /** Appending can only help. */
  lemma {:induction false} MaxPrefixGrows(r: Rates, a: seq<nat>, b: seq<nat>, s: Slope)
    ensures MaxPrefix(r, a + b, s) >= MaxPrefix(r, a, s)
  {
    MaxPrefixConcat(r, a, b, s);
  }

  lemma {:induction false} MaxPrefixBounds(r: Rates, l: seq<nat>, s: Slope, k: nat)
    requires k <= |l|
    ensures Value(SeqSum(r, l[..k]), s) <= MaxPrefix(r, l, s)
  {
    assert l == l[..k] + l[k..];
    MaxPrefixConcat(r, l[..k], l[k..], s);
  }

  lemma {:induction false} MaxPrefixReached(r: Rates, l: seq<nat>, s: Slope) returns (k: nat)
    ensures k <= |l| && MaxPrefix(r, l, s) == Value(SeqSum(r, l[..k]), s)
  {
    if l == [] || MaxPrefix(r, l, s) == 0 {
      k := 0;
    } else {
      var j := MaxPrefixReached(r, l[1..], s);
      k := j + 1;
      assert l[..k][1..] == l[1..][..j];
      ValueAdd(At(r, l[0]), SeqSum(r, l[1..][..j]), s);
    }
  }

  /** A common prefix does not matter. */
  lemma DominatesAfter(r: Rates, p: seq<nat>, a: seq<nat>, b: seq<nat>)
    requires Dominates(r, a, b)
    ensures Dominates(r, p + a, p + b)
  {
    forall s: Slope ensures MaxPrefix(r, p + a, s) >= MaxPrefix(r, p + b, s) {
      MaxPrefixConcat(r, p, a, s);
      MaxPrefixConcat(r, p, b, s);
      assert AsHigh(r, a, b, s);
    }
  }

  lemma DominatesTrans(r: Rates, a: seq<nat>, b: seq<nat>, c: seq<nat>)
    requires Dominates(r, a, b) && Dominates(r, b, c)
    ensures Dominates(r, a, c)
  {
    forall s: Slope ensures AsHigh(r, a, c, s) {
      assert AsHigh(r, a, b, s) && AsHigh(r, b, c, s);
    }
  }

  lemma DominatesAt(r: Rates, a: seq<nat>, b: seq<nat>, s: Slope)
    requires Dominates(r, a, b)
    ensures MaxPrefix(r, a, s) >= MaxPrefix(r, b, s)
  {
    assert AsHigh(r, a, b, s);
  }

  // ---------------------------------------------------------------- through chunks

  /** A solid chunk's best prefix is all of it or nothing. */
  lemma SolidMaxPrefix(r: Rates, c: seq<nat>, s: Slope)
    requires AllSized(r, c) && Solid(r, c)
    ensures MaxPrefix(r, c, s) == Max(0, Value(SeqSum(r, c), s))
  {
    MaxPrefixBounds(r, c, s, |c|);
    assert c[..|c|] == c;
    var k := MaxPrefixReached(r, c, s);
    if 0 < k < |c| {
      var p := SeqSum(r, c[..k]);
      assert c == c[..k] + c[k..];
      AllSizedParts(r, c[..k], c[k..]);
      SeqSumSize(r, c[..k]);
      SeqSumSize(r, c[k..]);
      SeqSumSize(r, c);
      SeqSumConcat(r, c[..k], c[k..]);
      var q := SeqSum(r, c[k..]);
      HigherIsAbove(p, SeqSum(r, c));
      if Value(SeqSum(r, c), s) <= 0 {
        BelowStays(SeqSum(r, c), p, s);
      } else {
        ValueAdd(p, q, SlopeOf(SeqSum(r, c)));
        AboveStays(SeqSum(r, c), q, s);
        ValueAdd(p, q, s);
      }
    }
  }

  /** The best prefix can be taken to end at a chunk boundary. */
  lemma {:induction false} BestChunkPrefix(r: Rates, cs: seq<seq<nat>>, s: Slope) returns (k: nat)
    requires AllSized(r, Flatten(cs)) && AllSolid(r, cs)
    ensures k <= |cs|
    ensures MaxPrefix(r, Flatten(cs), s) == Value(SeqSum(r, Flatten(cs[..k])), s)
  {
    if cs == [] || MaxPrefix(r, Flatten(cs), s) == 0 {
      k := 0;
    } else {
      AllSizedParts(r, cs[0], Flatten(cs[1..]));
      SolidMaxPrefix(r, cs[0], s);
      MaxPrefixConcat(r, cs[0], Flatten(cs[1..]), s);
      var j := BestChunkPrefix(r, cs[1..], s);
      k := j + 1;
      assert cs[..k][1..] == cs[1..][..j];
      SeqSumConcat(r, cs[0], Flatten(cs[1..][..j]));
      ValueAdd(SeqSum(r, cs[0]), SeqSum(r, Flatten(cs[1..][..j])), s);
    }
  }

  function ChunkRates(r: Rates, cs: seq<seq<nat>>): (f: seq<FeeFrac>)
    ensures |f| == |cs|
    ensures forall i :: 0 <= i < |cs| ==> f[i] == SeqSum(r, cs[i])
  {
    if cs == [] then [] else [SeqSum(r, cs[0])] + ChunkRates(r, cs[1..])
  }

  /** MaxPrefix computed from chunk feerates alone. */
  function RatesMax(f: seq<FeeFrac>, s: Slope): (m: int)
    ensures m >= 0
  {
    if f == [] then 0 else Max(0, Value(f[0], s) + RatesMax(f[1..], s))
  }

  lemma {:induction false} MaxPrefixOfChunks(r: Rates, cs: seq<seq<nat>>, s: Slope)
    requires AllSized(r, Flatten(cs)) && AllSolid(r, cs)
    ensures MaxPrefix(r, Flatten(cs), s) == RatesMax(ChunkRates(r, cs), s)
  {
    if cs != [] {
      AllSizedParts(r, cs[0], Flatten(cs[1..]));
      SolidMaxPrefix(r, cs[0], s);
      MaxPrefixConcat(r, cs[0], Flatten(cs[1..]), s);
      MaxPrefixOfChunks(r, cs[1..], s);
      assert ChunkRates(r, cs)[1..] == ChunkRates(r, cs[1..]);
    }
  }

  // ---------------------------------------------------------------- the diagram itself

  ghost predicate RatesSized(f: seq<FeeFrac>) {
    forall i :: 0 <= i < |f| ==> f[i].size > 0
  }

  ghost predicate RatesNonIncreasing(f: seq<FeeFrac>) {
    forall i, j :: 0 <= i < j < |f| ==> !f[j].Higher(f[i])
  }

  function Total(f: seq<FeeFrac>): FeeFrac {
    if f == [] then Empty else f[0].Add(Total(f[1..]))
  }

  /** Height at cumulative size x of the diagram through the chunk feerates f. */
  ghost function DiagramAt(f: seq<FeeFrac>, x: real): real
    requires RatesSized(f)
  {
    if f == [] then 0.0
    else if x <= f[0].size as real then x / (f[0].size as real) * (f[0].fee as real)
    else f[0].fee as real + DiagramAt(f[1..], x - f[0].size as real)
  }

  ghost function ValueAt(y: real, x: real, s: Slope): real {
    (s.den as real) * y - (s.num as real) * x
  }

  lemma {:induction false} TotalSize(f: seq<FeeFrac>)
    requires RatesSized(f)
    ensures Total(f).size >= 0
    ensures f != [] ==> Total(f).size >= f[0].size
  {
    if f != [] {
      TotalSize(f[1..]);
    }
  }

  lemma OnSegment(x: real, c: FeeFrac, s: Slope)
    requires c.size > 0 && 0.0 <= x <= c.size as real
    ensures ValueAt(x / (c.size as real) * (c.fee as real), x, s) == x / (c.size as real) * (Value(c, s) as real)
    ensures 0.0 <= x / (c.size as real) <= 1.0
  {
    var d, n, fee, size := s.den as real, s.num as real, c.fee as real, c.size as real;
    var t := x / size;
    assert t * size == x;
    ValueIs(c, s);
    assert Value(c, s) as real == d * fee - n * size by {
      assert (s.den * c.fee) as real == d * fee;
      assert (s.num * c.size) as real == n * size;
    }
    calc {
      ValueAt(t * fee, x, s);
      d * (t * fee) - n * (t * size);
      t * (d * fee) - t * (n * size);
      t * (d * fee - n * size);
      t * (Value(c, s) as real);
    }
  }

  lemma PartOfPositive(t: real, v: real)
    requires 0.0 <= t <= 1.0
    ensures t * v <= if v > 0.0 then v else 0.0
  {
  }

  lemma ValueAtShift(y: real, x: real, c: FeeFrac, s: Slope)
    ensures ValueAt(c.fee as real + y, x, s) ==
            (Value(c, s) as real) + ValueAt(y, x - c.size as real, s)
  {
    ValueIs(c, s);
    assert (s.den * c.fee) as real == (s.den as real) * (c.fee as real);
    assert (s.num * c.size) as real == (s.num as real) * (c.size as real);
  }

  /** No point of a diagram rises above its RatesMax, whatever the slope. */
  lemma {:induction false} DiagramBelowMax(f: seq<FeeFrac>, x: real, s: Slope)
    requires RatesSized(f) && 0.0 <= x <= Total(f).size as real
    ensures ValueAt(DiagramAt(f, x), x, s) <= RatesMax(f, s) as real
  {
    if f == [] {
    } else if x <= f[0].size as real {
      OnSegment(x, f[0], s);
      PartOfPositive(x / (f[0].size as real), Value(f[0], s) as real);
    } else {
      DiagramBelowMax(f[1..], x - f[0].size as real, s);
      ValueAtShift(DiagramAt(f[1..], x - f[0].size as real), x, f[0], s);
    }
  }

  /** On the first chunk, the diagram reaches RatesMax for that chunk's own slope: both are 0. */
  lemma FirstSegmentReachesMax(f: seq<FeeFrac>, x: real)
    requires RatesSized(f) && RatesNonIncreasing(f) && f != [] && 0.0 <= x <= f[0].size as real
    ensures ValueAt(DiagramAt(f, x), x, SlopeOf(f[0])) == RatesMax(f, SlopeOf(f[0])) as real
  {
    var s := SlopeOf(f[0]);
    OnSegment(x, f[0], s);
    assert Value(f[0], s) == 0;
    forall i | 0 <= i < |f| ensures Value(f[i], s) <= 0 {
      if i > 0 { HigherIsAbove(f[i], f[0]); }
    }
    NothingAbove(f, s);
  }

  /** The chunk under cumulative size x. */
  ghost function ChunkUnder(f: seq<FeeFrac>, x: real): (i: nat)
    requires f != []
    ensures i < |f|
  {
    if x <= f[0].size as real || |f| == 1 then 0 else 1 + ChunkUnder(f[1..], x - f[0].size as real)
  }

  /** Everywhere, the diagram reaches RatesMax for the slope of the chunk under x. */
  lemma {:induction false} DiagramReachesMax(f: seq<FeeFrac>, x: real)
    requires RatesSized(f) && RatesNonIncreasing(f) && f != [] && 0.0 <= x <= Total(f).size as real
    ensures ValueAt(DiagramAt(f, x), x, SlopeOf(f[ChunkUnder(f, x)])) ==
            RatesMax(f, SlopeOf(f[ChunkUnder(f, x)])) as real
  {
    if |f| == 1 { assert Total(f[1..]) == Empty; }
    if x <= f[0].size as real {
      FirstSegmentReachesMax(f, x);
    } else {
      var x' := x - f[0].size as real;
      DiagramReachesMax(f[1..], x');
      var c := f[1..][ChunkUnder(f[1..], x')];
      assert c == f[ChunkUnder(f, x)] && !c.Higher(f[0]);
      assert Value(f[0], SlopeOf(c)) >= 0;
      ValueAtShift(DiagramAt(f[1..], x'), x, f[0], SlopeOf(c));
    }
  }

  lemma {:induction false} NothingAbove(f: seq<FeeFrac>, s: Slope)
    requires RatesSized(f) && forall i :: 0 <= i < |f| ==> Value(f[i], s) <= 0
    ensures RatesMax(f, s) == 0
  {
    if f != [] {
      NothingAbove(f[1..], s);
    }
  }

  /** Past the last chunk the diagram is flat. */
  lemma {:induction false} DiagramTail(f: seq<FeeFrac>, x: real)
    requires RatesSized(f) && x >= Total(f).size as real
    ensures DiagramAt(f, x) == Total(f).fee as real
  {
    if f != [] {
      TotalSize(f[1..]);
      if x <= f[0].size as real {
        assert f[1..] == [];
      } else {
        DiagramTail(f[1..], x - f[0].size as real);
      }
    }
  }

  ghost predicate NowhereBelow(f: seq<FeeFrac>, g: seq<FeeFrac>)
    requires RatesSized(f) && RatesSized(g)
  {
    forall x: real :: x >= 0.0 ==> DiagramAt(f, x) >= DiagramAt(g, x)
  }

  lemma ValueAtMonotone(y: real, z: real, x: real, s: Slope)
    requires ValueAt(y, x, s) >= ValueAt(z, x, s)
    ensures y >= z
  {
    var d := s.den as real;
    assert d > 0.0 && d * y >= d * z;
  }

  lemma DiagramsFromMaxAt(f: seq<FeeFrac>, g: seq<FeeFrac>, x: real)
    requires RatesSized(f) && RatesNonIncreasing(f) && RatesSized(g) && Total(f).size == Total(g).size
    requires f != [] && 0.0 <= x <= Total(f).size as real
    requires forall s: Slope :: RatesMax(f, s) >= RatesMax(g, s)
    ensures DiagramAt(f, x) >= DiagramAt(g, x)
  {
    var s := SlopeOf(f[ChunkUnder(f, x)]);
    var y, z := DiagramAt(f, x), DiagramAt(g, x);
    var m, k := RatesMax(f, s) as real, RatesMax(g, s) as real;
    assert m >= k;
    assert ValueAt(y, x, s) == m by { DiagramReachesMax(f, x); }
    assert ValueAt(z, x, s) <= k by { DiagramBelowMax(g, x, s); }
    ValueAtMonotone(y, z, x, s);
  }

  lemma DiagramsFromMax(f: seq<FeeFrac>, g: seq<FeeFrac>)
    requires RatesSized(f) && RatesNonIncreasing(f) && RatesSized(g)
    requires Total(f).size == Total(g).size && Total(f).fee >= Total(g).fee
    requires forall s: Slope :: RatesMax(f, s) >= RatesMax(g, s)
    ensures NowhereBelow(f, g)
  {
    forall x: real | x >= 0.0 ensures DiagramAt(f, x) >= DiagramAt(g, x) {
      if x >= Total(f).size as real {
        DiagramTail(f, x);
        DiagramTail(g, x);
      } else {
        TotalSize(f);
        DiagramsFromMaxAt(f, g, x);
      }
    }
  }

  /** The cumulative point after k chunks lies on the diagram. */
  lemma {:induction false} DiagramAtVertex(f: seq<FeeFrac>, k: nat)
    requires RatesSized(f) && k <= |f|
    ensures DiagramAt(f, Total(f[..k]).size as real) == Total(f[..k]).fee as real
    ensures 0 <= Total(f[..k]).size <= Total(f).size
  {
    TotalSize(f);
    if k == 0 {
      if f != [] { assert 0.0 / (f[0].size as real) == 0.0; }
    } else {
      DiagramAtVertex(f[1..], k - 1);
      TotalSize(f[1..]);
      TotalFirst(f, k);
      DiagramStep(f, Total(f[1..][..k - 1]).size);
    }
  }

  lemma TotalFirst(f: seq<FeeFrac>, k: nat)
    requires RatesSized(f) && 0 < k <= |f|
    ensures Total(f[..k]).size == f[0].size + Total(f[1..][..k - 1]).size
    ensures Total(f[..k]).fee == f[0].fee + Total(f[1..][..k - 1]).fee
  {
    assert f[..k][1..] == f[1..][..k - 1];
  }

  /** Past its first chunk the diagram is that of the other chunks. */
  lemma DiagramStep(f: seq<FeeFrac>, n: nat)
    requires RatesSized(f) && f != []
    ensures DiagramAt(f, (f[0].size + n) as real) == f[0].fee as real + DiagramAt(f[1..], n as real)
  {
    if n == 0 {
      var d := f[0].size as real;
      assert d / d == 1.0;
      if f[1..] != [] { assert 0.0 / (f[1..][0].size as real) == 0.0; }
    } else {
      assert (f[0].size + n) as real - f[0].size as real == n as real;
    }
  }

  lemma {:induction false} RatesMaxReached(f: seq<FeeFrac>, s: Slope) returns (k: nat)
    ensures k <= |f| && RatesMax(f, s) == Value(Total(f[..k]), s)
  {
    if f == [] || RatesMax(f, s) == 0 {
      k := 0;
    } else {
      var j := RatesMaxReached(f[1..], s);
      k := j + 1;
      assert f[..k][1..] == f[1..][..j];
      ValueAdd(f[0], Total(f[1..][..j]), s);
    }
  }

  lemma MaxFromDiagrams(f: seq<FeeFrac>, g: seq<FeeFrac>, s: Slope)
    requires RatesSized(f) && RatesSized(g) && Total(f) == Total(g)
    requires NowhereBelow(f, g)
    ensures RatesMax(f, s) >= RatesMax(g, s)
  {
    var k := RatesMaxReached(g, s);
    var p := Total(g[..k]);
    var x := p.size as real;
    DiagramAtVertex(g, k);
    var y := DiagramAt(f, x);
    assert ValueAt(y, x, s) <= RatesMax(f, s) as real by {
      DiagramBelowMax(f, x, s);
    }
    assert y >= p.fee as real;
    PointValue(p, y, s);
  }

  lemma PointValue(p: FeeFrac, y: real, s: Slope)
    requires y >= p.fee as real
    ensures ValueAt(y, p.size as real, s) >= Value(p, s) as real
  {
    ValueIs(p, s);
    var d := s.den as real;
    assert d * y >= d * (p.fee as real);
    assert (s.den * p.fee) as real == d * (p.fee as real);
    assert (s.num * p.size) as real == (s.num as real) * (p.size as real);
  }

  lemma {:induction false} TotalOfChunks(r: Rates, cs: seq<seq<nat>>)
    ensures Total(ChunkRates(r, cs)) == SeqSum(r, Flatten(cs))
  {
    if cs != [] {
      TotalOfChunks(r, cs[1..]);
      assert ChunkRates(r, cs)[1..] == ChunkRates(r, cs[1..]);
      SeqSumConcat(r, cs[0], Flatten(cs[1..]));
    }
  }

  /** The feerates of the chunks of l: what ChunkLinearization returns. */
  function DiagramOf(r: Rates, l: seq<nat>): seq<FeeFrac> {
    ChunkRates(r, Chunks(r, l))
  }

  lemma DiagramOfProps(r: Rates, l: seq<nat>)
    requires AllSized(r, l)
    ensures RatesSized(DiagramOf(r, l)) && RatesNonIncreasing(DiagramOf(r, l))
    ensures Total(DiagramOf(r, l)) == SeqSum(r, l)
    ensures forall s: Slope :: RatesMax(DiagramOf(r, l), s) == MaxPrefix(r, l, s)
  {
    ChunksCorrect(r, l);
    var cs := Chunks(r, l);
    forall i | 0 <= i < |cs| ensures SeqSum(r, cs[i]).size > 0 {
      ChunkSized(r, cs, i);
    }
    TotalOfChunks(r, cs);
    forall s: Slope ensures RatesMax(DiagramOf(r, l), s) == MaxPrefix(r, l, s) {
      MaxPrefixOfChunks(r, cs, s);
    }
  }

  /**
   Being at least as good in the dual sense is exactly having a diagram that is nowhere below
   the other's, for any two orders of transactions with the same total fee and size.
   */
  lemma DominatesIffDiagram(r: Rates, a: seq<nat>, b: seq<nat>)
    requires AllSized(r, a) && AllSized(r, b) && SeqSum(r, a) == SeqSum(r, b)
    ensures RatesSized(DiagramOf(r, a)) && RatesSized(DiagramOf(r, b))
    ensures Dominates(r, a, b) <==> NowhereBelow(DiagramOf(r, a), DiagramOf(r, b))
  {
    DiagramOfProps(r, a);
    DiagramOfProps(r, b);
    var f, g := DiagramOf(r, a), DiagramOf(r, b);
    if Dominates(r, a, b) {
      forall s: Slope ensures RatesMax(f, s) >= RatesMax(g, s) {
        DominatesAt(r, a, b, s);
      }
      DiagramsFromMax(f, g);
    }
    if NowhereBelow(f, g) {
      forall s: Slope ensures MaxPrefix(r, a, s) >= MaxPrefix(r, b, s) {
        MaxFromDiagrams(f, g, s);
      }
    }
  }
}
