/**
 Topologically valid orders, and what moving a set of transactions to the front does to the
 feerate diagram. Shared by merging, post-processing and linearizing.
 */
module Linearizations {
  import opened FeeFracs
  import opened TxSets
  import opened Chunking
  import opened Diagrams
  import opened DepGraphs

  /** No transaction comes after one of its descendants. */
  ghost predicate Topological(g: Graph, l: seq<nat>) {
    forall i, j :: 0 <= i < j < |l| ==> l[j] !in g.Anc(l[i])
  }

  ghost predicate IsLinearization(g: Graph, l: seq<nat>, todo: set<nat>) {
    NoDup(l) && Elems(l) == todo && Topological(g, l)
  }

  /** No member of b is an ancestor of a member of a. */
  ghost predicate NoneAbove(g: Graph, a: set<nat>, b: set<nat>) {
    forall x: nat, y: nat :: x in a && y in b ==> y !in g.Anc(x)
  }

  /** s contains every ancestor that is still in todo: a topologically valid subset of todo. */
  ghost predicate ClosedIn(g: Graph, todo: set<nat>, s: set<nat>) {
    && s <= todo
    && forall x: nat, y: nat :: x in s && y in g.Anc(x) && y in todo ==> y in s
  }

  lemma TopologicalConcat(g: Graph, a: seq<nat>, b: seq<nat>)
    ensures Topological(g, a + b) <==> Topological(g, a) && Topological(g, b) && NoneAbove(g, Elems(a), Elems(b))
  {
    var c := a + b;
    if Topological(g, c) {
      forall i, j | 0 <= i < j < |a| ensures a[j] !in g.Anc(a[i]) {
        assert c[j] !in g.Anc(c[i]);
      }
      forall i, j | 0 <= i < j < |b| ensures b[j] !in g.Anc(b[i]) {
        assert c[|a| + j] !in g.Anc(c[|a| + i]);
      }
      forall x: nat, y: nat | x in Elems(a) && y in Elems(b) ensures y !in g.Anc(x) {
        var i :| 0 <= i < |a| && a[i] == x;
        var j :| 0 <= j < |b| && b[j] == y;
        assert c[|a| + j] !in g.Anc(c[i]);
      }
    }
    if Topological(g, a) && Topological(g, b) && NoneAbove(g, Elems(a), Elems(b)) {
      forall i, j | 0 <= i < j < |c| ensures c[j] !in g.Anc(c[i]) {
        if i < |a| <= j {
          assert c[i] in Elems(a) && c[j] in Elems(b);
        }
      }
    }
  }

  lemma {:induction false} TopologicalFilter(g: Graph, l: seq<nat>, s: set<nat>)
    requires Topological(g, l)
    ensures Topological(g, Filter(l, s))
  {
    if l != [] {
      assert l == [l[0]] + l[1..];
      TopologicalConcat(g, [l[0]], l[1..]);
      TopologicalFilter(g, l[1..], s);
      if l[0] in s {
        FilterProps(l[1..], s);
        TopologicalConcat(g, [l[0]], Filter(l[1..], s));
      }
    }
  }

  lemma FilterIsLinearization(g: Graph, l: seq<nat>, todo: set<nat>, s: set<nat>)
    requires IsLinearization(g, l, todo) && s <= todo
    ensures IsLinearization(g, Filter(l, s), s)
  {
    FilterProps(l, s);
    TopologicalFilter(g, l, s);
  }

  /** Every prefix of a linearization contains the remaining ancestors of its members. */
  lemma PrefixClosed(g: Graph, a: seq<nat>, b: seq<nat>, todo: set<nat>)
    requires IsLinearization(g, a + b, todo)
    ensures ClosedIn(g, todo, Elems(a))
  {
    TopologicalConcat(g, a, b);
    ElemsConcat(a, b);
  }

  lemma ClosedIntersection(g: Graph, todo: set<nat>, a: set<nat>, b: set<nat>)
    requires ClosedIn(g, todo, a) && ClosedIn(g, todo, b)
    ensures ClosedIn(g, todo, a * b)
  {
  }

  /** A closed set, in order, followed by the rest, in order. */
  lemma FrontAndRest(g: Graph, todo: set<nat>, front: set<nat>, t: seq<nat>, rest: seq<nat>)
    requires ClosedIn(g, todo, front)
    requires IsLinearization(g, t, front) && IsLinearization(g, rest, todo - front)
    ensures IsLinearization(g, t + rest, todo)
  {
    NoDupConcat(t, rest);
    ElemsConcat(t, rest);
    TopologicalConcat(g, t, rest);
  }

  lemma SizedToAllSized(g: Graph, l: seq<nat>, todo: set<nat>)
    requires Sized(g.Rates(), g.used) && Elems(l) == todo && todo <= g.used
    ensures AllSized(g.Rates(), l)
  {
    forall i | 0 <= i < |l| ensures l[i] < |g.Rates()| && g.Rates()[l[i]].size > 0 {
      assert l[i] in Elems(l);
    }
  }

  /** The feerate diagram of a is nowhere below that of b. */
  ghost predicate AtLeastAsGood(g: Graph, a: seq<nat>, b: seq<nat>) {
    && RatesSized(DiagramOf(g.Rates(), a)) && RatesSized(DiagramOf(g.Rates(), b))
    && NowhereBelow(DiagramOf(g.Rates(), a), DiagramOf(g.Rates(), b))
  }

  /** For linearizations of the same transactions, comparing diagrams is comparing best prefixes. */
  lemma SameSetGoodness(g: Graph, a: seq<nat>, b: seq<nat>, todo: set<nat>)
    requires Sized(g.Rates(), g.used) && todo <= g.used
    requires IsLinearization(g, a, todo) && IsLinearization(g, b, todo)
    ensures AtLeastAsGood(g, a, b) <==> Dominates(g.Rates(), a, b)
  {
    var r := g.Rates();
    SizedToAllSized(g, a, todo);
    SizedToAllSized(g, b, todo);
    SubSeqSum(r, a, a);
    SubSeqSum(r, b, b);
    DominatesIffDiagram(r, a, b);
  }

  // ---------------------------------------------------------------- moving a set to the front

  /**
   If what `front` adds to the prefix q of l does not lie below the line of slope s, then moving
   `front` before everything else keeps at least the height that q reaches above that line.
   */
  lemma MoveToFront(r: Rates, l: seq<nat>, front: set<nat>, t: seq<nat>, k: nat, s: Slope)
    requires NoDup(l) && AllSized(r, l) && front <= Elems(l) && k <= |l|
    requires NoDup(t) && Elems(t) == front
    requires Value(Sum(r, front - Elems(l[..k])), s) >= 0
    ensures MaxPrefix(r, t + Filter(l, Elems(l) - front), s) >= Value(SeqSum(r, l[..k]), s)
  {
    var keep := Elems(l) - front;
    var p := t + Filter(l[..k], keep);
    assert l == l[..k] + l[k..];
    FilterConcat(l[..k], l[k..], keep);
    assert t + Filter(l, keep) == p + Filter(l[k..], keep);
    assert (t + Filter(l, keep))[..|p|] == p;
    MaxPrefixBounds(r, t + Filter(l, keep), s, |p|);
    FrontPrefixSum(r, l, front, t, k);
    FourSums(Sum(r, front * Elems(l[..k])), Sum(r, front - Elems(l[..k])), Sum(r, Elems(l[..k]) - front), s);
  }

  /** The sums of front + (prefix without front) and of the prefix share what both contain. */
  lemma FrontPrefixSum(r: Rates, l: seq<nat>, front: set<nat>, t: seq<nat>, k: nat)
    requires NoDup(l) && AllSized(r, l) && front <= Elems(l) && k <= |l|
    requires NoDup(t) && Elems(t) == front
    ensures var q := Elems(l[..k]);
      && SeqSum(r, l[..k]) == Sum(r, front * q).Add(Sum(r, q - front))
      && SeqSum(r, t + Filter(l[..k], Elems(l) - front)) == Sum(r, front * q).Add(Sum(r, front - q)).Add(Sum(r, q - front))
  {
    var q, f := l[..k], Filter(l[..k], Elems(l) - front);
    assert l == q + l[k..];
    NoDupConcat(q, l[k..]);
    ElemsConcat(q, l[k..]);
    FilterProps(q, Elems(l) - front);
    SeqSumConcat(r, t, f);
    SubSeqSum(r, l, t);
    SubSeqSum(r, l, f);
    SubSeqSum(r, l, q);
    assert Elems(f) == Elems(q) - front;
    SumSplit(r, front, Elems(q));
    SumSplit(r, Elems(q), front);
    assert front * Elems(q) == Elems(q) * front;
  }

  lemma SubSeqSum(r: Rates, l: seq<nat>, t: seq<nat>)
    requires AllSized(r, l) && NoDup(t) && Elems(t) <= Elems(l)
    ensures SeqSum(r, t) == Sum(r, Elems(t))
  {
    forall i | 0 <= i < |t| ensures t[i] < |r| {
      assert t[i] in Elems(t);
      var j :| 0 <= j < |l| && l[j] == t[i];
    }
    SeqSumIsSum(r, t);
  }

  lemma FourSums(both: FeeFrac, added: FeeFrac, other: FeeFrac, s: Slope)
    ensures Value(both.Add(added).Add(other), s) == Value(both.Add(other), s) + Value(added, s)
  {
    ValueAdd(both.Add(added), other, s);
    ValueAdd(both, added, s);
    ValueAdd(both, other, s);
  }

  /** Transactions of the first k chunks. */
  ghost function ChunkPrefix(cs: seq<seq<nat>>, k: nat): set<nat>
    requires k <= |cs|
  {
    Elems(Flatten(cs[..k]))
  }

  /**
   front is safe to move first: at every chunk boundary it either lies inside the prefix, or what
   it adds has at least feerate c, where no chunk has a feerate above c.
   */
  ghost predicate SafeFront(r: Rates, cs: seq<seq<nat>>, c: FeeFrac, front: set<nat>) {
    && c.size > 0
    && (forall i :: 0 <= i < |cs| ==> !SeqSum(r, cs[i]).Higher(c))
    && (forall k :: 0 <= k <= |cs| ==>
        k == 0 || front <= ChunkPrefix(cs, k) || Value(Sum(r, front - ChunkPrefix(cs, k)), SlopeOf(c)) >= 0)
    && Value(Sum(r, front), SlopeOf(c)) >= 0
  }

  lemma FlattenPrefix(cs: seq<seq<nat>>, k: nat)
    requires k <= |cs|
    ensures |Flatten(cs[..k])| <= |Flatten(cs)|
    ensures Flatten(cs) == Flatten(cs[..k]) + Flatten(cs[k..])
    ensures Flatten(cs)[..|Flatten(cs[..k])|] == Flatten(cs[..k])
  {
    assert cs == cs[..k] + cs[k..];
    FlattenConcat(cs[..k], cs[k..]);
  }

  /** If some prefix rises above the line, c lies above it too. */
  lemma {:induction false} PositiveMaxPrefix(r: Rates, cs: seq<seq<nat>>, c: FeeFrac, s: Slope)
    requires AllSized(r, Flatten(cs)) && AllSolid(r, cs) && c.size > 0
    requires forall i :: 0 <= i < |cs| ==> !SeqSum(r, cs[i]).Higher(c)
    ensures MaxPrefix(r, Flatten(cs), s) > 0 ==> Value(c, s) > 0
  {
    if Value(c, s) <= 0 {
      forall i | 0 <= i < |cs| ensures Value(SeqSum(r, cs[i]), s) <= 0 {
        ChunkSized(r, cs, i);
        HigherIsAbove(SeqSum(r, cs[i]), c);
        BelowStays(c, SeqSum(r, cs[i]), s);
      }
      var k := MaxPrefixReached(r, Flatten(cs), s);
      PrefixBelow(r, cs, k, s);
    }
  }

  /** Moving a safe set to the front never makes the linearization worse anywhere. */
  lemma SafeFrontDominates(r: Rates, l: seq<nat>, cs: seq<seq<nat>>, c: FeeFrac, front: set<nat>, t: seq<nat>)
    requires NoDup(l) && AllSized(r, l) && front <= Elems(l) && IsChunking(r, l, cs)
    requires NoDup(t) && Elems(t) == front
    requires SafeFront(r, cs, c, front)
    ensures Dominates(r, t + Filter(l, Elems(l) - front), l)
  {
    forall s: Slope ensures MaxPrefix(r, t + Filter(l, Elems(l) - front), s) >= MaxPrefix(r, l, s) {
      if MaxPrefix(r, l, s) > 0 {
        var k := BestChunkPrefix(r, cs, s);
        PositiveMaxPrefix(r, cs, c, s);
        FlattenPrefix(cs, k);
        var added := front - ChunkPrefix(cs, k);
        SafeFrontAdds(r, l, cs, c, front, k, s);
        MoveToFront(r, l, front, t, |Flatten(cs[..k])|, s);
      }
    }
  }

  lemma SafeFrontAdds(r: Rates, l: seq<nat>, cs: seq<seq<nat>>, c: FeeFrac, front: set<nat>, k: nat, s: Slope)
    requires NoDup(l) && AllSized(r, l) && front <= Elems(l) && Flatten(cs) == l && k <= |cs|
    requires SafeFront(r, cs, c, front) && Value(c, s) > 0
    ensures Value(Sum(r, front - ChunkPrefix(cs, k)), s) >= 0
  {
    var added := front - ChunkPrefix(cs, k);
    assert Sized(r, added) by {
      forall i <- added ensures i < |r| && r[i].size > 0 {
        assert i in Elems(l);
        var j :| 0 <= j < |l| && l[j] == i;
      }
    }
    SumSize(r, added);
    if k == 0 {
      assert cs[..0] == [];
      assert added == front;
    }
    if added != {} {
      AboveStays(c, Sum(r, added), s);
    }
  }

  // ---------------------------------------------------------------- optimal sets

  /** No nonempty topologically valid subset of todo has a higher feerate than `best`. */
  ghost predicate HighestFeerate(g: Graph, todo: set<nat>, best: set<nat>) {
    && best != {} && ClosedIn(g, todo, best)
    && forall s: set<nat> :: s != {} && ClosedIn(g, todo, s) ==> !Sum(g.Rates(), s).Higher(Sum(g.Rates(), best))
  }

  /**
   Starting with a highest-feerate closed subset is at least as good as any linearization: what
   follows the subset only has to do as well as the rest of that linearization.
   */
  lemma OptimalFrontDominates(g: Graph, todo: set<nat>, best: set<nat>, t: seq<nat>, l: seq<nat>)
    requires Valid(g) && todo <= g.used && HighestFeerate(g, todo, best)
    requires IsLinearization(g, t, best) && IsLinearization(g, l, todo)
    ensures Dominates(g.Rates(), t + Filter(l, todo - best), l)
  {
    var r := g.Rates();
    SizedToAllSized(g, l, todo);
    forall s: Slope ensures MaxPrefix(r, t + Filter(l, todo - best), s) >= MaxPrefix(r, l, s) {
      var k := MaxPrefixReached(r, l, s);
      if MaxPrefix(r, l, s) > 0 {
        OptimalFrontAdds(g, todo, best, l, k, s);
        MoveToFront(r, l, best, t, k, s);
      }
    }
  }

  lemma OptimalFrontAdds(g: Graph, todo: set<nat>, best: set<nat>, l: seq<nat>, k: nat, s: Slope)
    requires Valid(g) && todo <= g.used && HighestFeerate(g, todo, best) && IsLinearization(g, l, todo)
    requires k <= |l| && Value(SeqSum(g.Rates(), l[..k]), s) > 0
    ensures Value(Sum(g.Rates(), best - Elems(l[..k])), s) >= 0
  {
    var r := g.Rates();
    var q := Elems(l[..k]);
    assert l == l[..k] + l[k..];
    PrefixClosed(g, l[..k], l[k..], todo);
    NoDupConcat(l[..k], l[k..]);
    assert Sized(r, q) && Sized(r, best) && Sized(r, best * q) && Sized(r, best - q);
    SizedSeq(r, l[..k]);
    assert q != {} by {
      if q == {} { SumEmpty(r); }
    }
    var B := Sum(r, best);
    SumSize(r, best);
    SumSize(r, q);
    // best lies above every line that some prefix lies above
    HigherIsAbove(Sum(r, q), B);
    if Value(B, s) <= 0 {
      BelowStays(B, Sum(r, q), s);
    }
    // what best adds to q lies on or above best's own line
    ClosedIntersection(g, todo, best, q);
    SumSize(r, best * q);
    if best * q != {} {
      HigherIsAbove(Sum(r, best * q), B);
    }
    SumSplit(r, best, q);
    ValueAdd(Sum(r, best * q), Sum(r, best - q), SlopeOf(B));
    SumSize(r, best - q);
    AboveStays(B, Sum(r, best - q), s);
  }

  // ---------------------------------------------------------------- AppendTopo

  /** The comparator of DepGraph::AppendTopo: fewer ancestors first, then lower position. */
  predicate TopoBefore(g: Graph, a: nat, b: nat) {
    |g.Anc(a)| < |g.Anc(b)| || (|g.Anc(a)| == |g.Anc(b)| && a < b)
  }

  ghost predicate TopoSorted(g: Graph, l: seq<nat>) {
    forall i, j :: 0 <= i < j < |l| ==> TopoBefore(g, l[i], l[j])
  }

  lemma SortedIsTopological(g: Graph, l: seq<nat>)
    requires WellFormed(g) && Acyclic(g) && Elems(l) <= g.used && NoDup(l) && TopoSorted(g, l)
    ensures Topological(g, l)
  {
    forall i, j | 0 <= i < j < |l| ensures l[j] !in g.Anc(l[i]) {
      assert l[i] in Elems(l) && l[j] in Elems(l);
      if l[j] in g.Anc(l[i]) {
        assert l[i] !in g.Anc(l[j]) && l[i] in g.Anc(l[i]);
        assert g.Anc(l[j]) < g.Anc(l[i]);
        Shrinks(g.Anc(l[j]), g.Anc(l[i]));
        assert false;
      }
    }
  }

  /** Where x goes in a sorted list. */
  method InsertSorted(g: Graph, l: seq<nat>, x: nat) returns (l': seq<nat>)
    requires TopoSorted(g, l) && NoDup(l) && x !in l
    ensures TopoSorted(g, l') && NoDup(l') && Elems(l') == Elems(l) + {x}
  {
    var k := |l|;
    while k > 0 && TopoBefore(g, x, l[k - 1])
      invariant 0 <= k <= |l|
      invariant forall j :: k <= j < |l| ==> TopoBefore(g, x, l[j])
    {
      k := k - 1;
    }
    l' := l[..k] + [x] + l[k..];
    forall j | 0 <= j < k ensures TopoBefore(g, l[j], x) {
      assert l[k - 1] != x;
      if j < k - 1 { assert TopoBefore(g, l[j], l[k - 1]); }
    }
  }

  /** Append the members of select to list in a topologically valid order. */
  method AppendTopo(g: Graph, list: seq<nat>, select: set<nat>) returns (list': seq<nat>)
    requires WellFormed(g) && Acyclic(g) && select <= g.used
    ensures exists t :: IsLinearization(g, t, select) && list' == list + t
  {
    var t: seq<nat> := [];
    assert Below(select, 0) == {} && Elems(t) == {};
    for i := 0 to |g.entries|
      invariant TopoSorted(g, t) && NoDup(t) && Elems(t) == Below(select, i)
    {
      BelowStep(select, i);
      if i in select {
        assert i !in Elems(t);
        t := InsertSorted(g, t, i);
      }
    }
    BelowAll(select, |g.entries|);
    SortedIsTopological(g, t);
    list' := list + t;
  }
}
