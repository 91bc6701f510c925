/**
 The two candidate finders as objects: the best remaining ancestor set
 (AncestorCandidateFinder, src/cluster_linearize.h:519-617), and the bounded search on an
 internally sorted copy of the graph (SearchCandidateFinder, src/cluster_linearize.h:619-998).
 */
module CandidateFinders {
  import opened FeeFracs
  import opened TxSets
  import opened DepGraphs
  import opened Linearizations
  import opened CandidateTheory
  import opened CandidateSearch
  import opened Numbers

  // ---------------------------------------------------------------- best ancestor set

  class AncestorCandidateFinder {
    const g: Graph
    var todo: set<nat>
    /** Feerate of each remaining ancestor set, kept up to date for members of todo. */
    var ancestorSetFeerates: seq<FeeFrac>

    ghost predicate Valid()
      reads this
    {
      && DepGraphs.Valid(g) && todo <= g.used && |ancestorSetFeerates| == |g.entries|
      && Feerates(g, todo, todo, ancestorSetFeerates)
    }

    constructor (g: Graph)
      requires DepGraphs.Valid(g)
      ensures Valid() && this.g == g && todo == g.used
    {
      this.g := g;
      todo := g.used;
      ancestorSetFeerates := seq(|g.entries|, _ => Empty);
      new;
      for i := 0 to |g.entries|
        invariant todo == g.used && |ancestorSetFeerates| == |g.entries|
        invariant Feerates(g, g.used, Below(g.used, i), ancestorSetFeerates)
      {
        BelowStep(g.used, i);
        if i in g.used {
          var anc := g.Anc(i);
          var first := First(anc, |g.entries|);
          var total := Empty;
          if first < i {
            total := ancestorSetFeerates[first];
            anc := anc - g.Anc(first);
          }
          total := total.Add(Sum(g.Rates(), anc));
          FromFirstAncestor(g, i, first, ancestorSetFeerates);
          ancestorSetFeerates := ancestorSetFeerates[i := total];
        }
      }
      BelowAll(g.used, |g.entries|);
    }

    /** Remove transactions from what remains. */
    method MarkDone(select: set<nat>)
      requires Valid() && select != {} && select <= todo
      modifies this
      ensures Valid() && todo == old(todo) - select
    {
      ghost var all := todo;
      todo := todo - select;
      BelowAll(select, |g.entries|);
      assert all - Below(select, 0) == all;
      for i := 0 to |g.entries|
        invariant todo == all - select && |ancestorSetFeerates| == |g.entries|
        invariant Feerates(g, all - Below(select, i), todo, ancestorSetFeerates)
      {
        BelowStep(select, i);
        if i in select {
          SubtractFrom(i, all - Below(select, i));
          assert all - Below(select, i) - {i} == all - Below(select, i + 1);
        }
      }
    }

    /** Subtract transaction i from the ancestor sets of its remaining descendants. */
    method SubtractFrom(i: nat, ghost left: set<nat>)
      requires DepGraphs.Valid(g) && todo <= left <= g.used && i in left && i !in todo
      requires |ancestorSetFeerates| == |g.entries| && Feerates(g, left, todo, ancestorSetFeerates)
      modifies this`ancestorSetFeerates
      ensures |ancestorSetFeerates| == |g.entries| && Feerates(g, left - {i}, todo, ancestorSetFeerates)
    {
      var feerate := g.entries[i].feerate;
      ghost var before := ancestorSetFeerates;
      for j := 0 to |g.entries|
        invariant |ancestorSetFeerates| == |before|
        invariant forall k :: 0 <= k < |before| ==>
          ancestorSetFeerates[k] == if k < j && k in g.Desc(i) * todo then before[k].Sub(feerate) else before[k]
      {
        if j in g.Desc(i) * todo {
          ancestorSetFeerates := ancestorSetFeerates[j := ancestorSetFeerates[j].Sub(feerate)];
        }
      }
      forall k: nat | k in todo ensures ancestorSetFeerates[k] == Sum(g.Rates(), g.Anc(k) * (left - {i})) {
        OneAncestorLess(g, left, i, k);
        assert i in g.Anc(k) <==> k in g.Desc(i);
      }
    }

    /** The best remaining ancestor set: highest feerate, smallest size among equals. */
    method FindCandidateSet() returns (ret: SetInfo)
      requires Valid() && todo != {}
      ensures ret.Honest(g.Rates()) && Candidate(g, todo, ret.transactions) && ret.feerate.size > 0
      ensures exists i: nat :: i in todo && ret.transactions == g.Anc(i) * todo
      ensures forall i: nat :: i in todo ==> !Sum(g.Rates(), g.Anc(i) * todo).Better(ret.feerate)
    {
      var best := First(todo, |g.entries|);
      AncestorSetSize(g, todo, best);
      NotBetterSelf(ancestorSetFeerates[best]);
      for i := best to |g.entries|
        invariant best in todo && best < |g.entries| && ancestorSetFeerates[best].size > 0
        invariant forall k: nat :: k in todo && k < i ==> !ancestorSetFeerates[k].Better(ancestorSetFeerates[best])
      {
        if i in todo {
          AncestorSetSize(g, todo, i);
          if ancestorSetFeerates[i].Better(ancestorSetFeerates[best]) {
            forall k: nat | k in todo && k < i + 1 ensures !ancestorSetFeerates[k].Better(ancestorSetFeerates[i]) {
              AncestorSetSize(g, todo, k);
              BetterAsym(ancestorSetFeerates[i], ancestorSetFeerates[best]);
              if k < i {
                AtLeastTrans(ancestorSetFeerates[i], ancestorSetFeerates[best], ancestorSetFeerates[k]);
              } else {
                NotBetterSelf(ancestorSetFeerates[i]);
              }
            }
            best := i;
          }
        }
      }
      ret := SetInfo(g.Anc(best) * todo, ancestorSetFeerates[best]);
      AncestorsClosed(g, todo, best);
    }
  }

  /** f[i] is the feerate of i's ancestors within left, for every i in who. */
  ghost predicate Feerates(g: Graph, left: set<nat>, who: set<nat>, f: seq<FeeFrac>) {
    forall i: nat :: i in who ==> i < |f| && f[i] == Sum(g.Rates(), g.Anc(i) * left)
  }

  lemma AncestorSetSize(g: Graph, todo: set<nat>, i: nat)
    requires DepGraphs.Valid(g) && todo <= g.used && i in todo
    ensures Sum(g.Rates(), g.Anc(i) * todo).size > 0
  {
    assert i in g.Anc(i) * todo;
    CandidateSize(g, todo, g.Anc(i) * todo);
  }

  /** Reusing the first ancestor's total: its ancestors are among i's. */
  lemma FromFirstAncestor(g: Graph, i: nat, first: nat, f: seq<FeeFrac>)
    requires WellFormed(g) && i in g.used && IsFirst(g.Anc(i), first)
    requires Feerates(g, g.used, Below(g.used, i), f)
    ensures first < i ==> first < |f|
    ensures first < i ==> f[first].Add(Sum(g.Rates(), g.Anc(i) - g.Anc(first))) == Sum(g.Rates(), g.Anc(i) * g.used)
    ensures Empty.Add(Sum(g.Rates(), g.Anc(i))) == Sum(g.Rates(), g.Anc(i) * g.used)
  {
    assert g.Anc(i) * g.used == g.Anc(i);
    if first < i {
      assert first in Below(g.used, i);
      assert g.Anc(first) * g.used == g.Anc(i) * g.Anc(first);
      SumSplit(g.Rates(), g.Anc(i), g.Anc(first));
    }
  }

  lemma OneAncestorLess(g: Graph, left: set<nat>, i: nat, k: nat)
    requires WellFormed(g) && i in left && left <= g.used
    ensures Sum(g.Rates(), g.Anc(k) * (left - {i})) ==
            if i in g.Anc(k) then Sum(g.Rates(), g.Anc(k) * left).Sub(g.entries[i].feerate) else Sum(g.Rates(), g.Anc(k) * left)
  {
    var a, b := g.Anc(k) * left, g.Anc(k) * (left - {i});
    if i in g.Anc(k) {
      assert a == b + {i};
      SumUnion(g.Rates(), b, {i});
      SumSingle(g.Rates(), i);
    } else {
      assert a == b;
    }
  }

  // ---------------------------------------------------------------- renumbering

  lemma {:induction false} ImageSum(g: Graph, h: Graph, mapping: seq<nat>, s: set<nat>)
    requires WellFormed(g) && WellFormed(h) && InjectiveOn(mapping, g.used) && SameRates(g, h, mapping) && s <= g.used
    ensures Sum(h.Rates(), Image(mapping, s)) == Sum(g.Rates(), s)
    decreases |s|
  {
    if s == {} {
      assert Image(mapping, s) == {};
      SumEmpty(g.Rates());
      SumEmpty(h.Rates());
    } else {
      var x: nat :| x in s;
      var rest := s - {x};
      Shrinks(rest, s);
      ImageSum(g, h, mapping, rest);
      ImageWithout(mapping, g.used, s, x);
      SumUnion(h.Rates(), Image(mapping, rest), {mapping[x]});
      SumSingle(h.Rates(), mapping[x]);
      assert s == rest + {x};
      SumUnion(g.Rates(), rest, {x});
      SumSingle(g.Rates(), x);
    }
  }

  lemma ImageWithout(mapping: seq<nat>, used: set<nat>, s: set<nat>, x: nat)
    requires InjectiveOn(mapping, used) && s <= used && x in s
    ensures Image(mapping, s) == Image(mapping, s - {x}) + {mapping[x]}
    ensures mapping[x] !in Image(mapping, s - {x})
  {
  }

  lemma ImageMember(mapping: seq<nat>, used: set<nat>, s: set<nat>, x: nat)
    requires InjectiveOn(mapping, used) && s <= used && x in used
    ensures mapping[x] in Image(mapping, s) <==> x in s
  {
  }

  lemma ImageClosed(g: Graph, h: Graph, mapping: seq<nat>, todo: set<nat>, s: set<nat>)
    requires WellFormed(g) && Isomorphic(g, h, mapping) && todo <= g.used && s <= g.used
    requires ClosedIn(g, todo, s)
    ensures ClosedIn(h, Image(mapping, todo), Image(mapping, s))
  {
    ImageWithin(mapping, s, todo);
    forall a: nat, b: nat | a in Image(mapping, s) && b in h.Anc(a) && b in Image(mapping, todo)
      ensures b in Image(mapping, s)
    {
      var x: nat :| x in s && x < |mapping| && mapping[x] == a;
      var y: nat :| y in todo && y < |mapping| && mapping[y] == b;
      assert y in g.Anc(x);
    }
  }

  /** back undoes mapping. */
  ghost predicate Inverses(g: Graph, mapping: seq<nat>, back: seq<nat>) {
    && |mapping| == |g.entries| && InjectiveOn(mapping, g.used)
    && (forall i: nat :: i in g.used ==> mapping[i] < |back| && back[mapping[i]] == i)
    && (forall k: nat :: k < |back| ==> back[k] in g.used && mapping[back[k]] == k)
  }

  lemma ImageBack(g: Graph, mapping: seq<nat>, back: seq<nat>, s: set<nat>)
    requires WellFormed(g) && Inverses(g, mapping, back) && s <= g.used
    ensures Image(back, Image(mapping, s)) == s
  {
    forall x: nat | x in s ensures x in Image(back, Image(mapping, s)) {
      assert mapping[x] in Image(mapping, s);
    }
  }

  lemma ImageForth(g: Graph, mapping: seq<nat>, back: seq<nat>, t: set<nat>)
    requires WellFormed(g) && Inverses(g, mapping, back) && forall k <- t :: k < |back|
    ensures Image(mapping, Image(back, t)) == t && Image(back, t) <= g.used
  {
    forall k: nat | k in t ensures k in Image(mapping, Image(back, t)) {
      assert back[k] in Image(back, t);
    }
  }

  lemma IsomorphicValid(g: Graph, h: Graph, mapping: seq<nat>)
    requires DepGraphs.Valid(g) && WellFormed(h) && Isomorphic(g, h, mapping)
    ensures DepGraphs.Valid(h)
  {
    forall a: nat, b: nat | a in h.used && b in h.Anc(a) && a in h.Anc(b) ensures a == b {
      var x: nat :| x in g.used && x < |mapping| && mapping[x] == a;
      var y: nat :| y in g.used && y < |mapping| && mapping[y] == b;
      assert y in g.Anc(x) && x in g.Anc(y);
    }
    forall a <- h.used ensures a < |h.Rates()| && h.Rates()[a].size > 0 {
      var x: nat :| x in g.used && x < |mapping| && mapping[x] == a;
      assert g.Rates()[x].size > 0;
    }
  }

  // ---------------------------------------------------------------- sorting by feerate

  ghost predicate FeerateSorted(g: Graph, order: seq<nat>) {
    forall i, j :: 0 <= i < j < |order| ==> !At(g.Rates(), order[j]).Better(At(g.Rates(), order[i]))
  }

  /** The comparator of the constructor: better feerate first, then lower position. */
  predicate FeerateBefore(g: Graph, a: nat, b: nat) {
    At(g.Rates(), a).Better(At(g.Rates(), b)) || (At(g.Rates(), a) == At(g.Rates(), b) && a < b)
  }

  method InsertByFeerate(g: Graph, order: seq<nat>, x: nat) returns (order': seq<nat>)
    requires DepGraphs.Valid(g) && NoDup(order) && Elems(order) <= g.used && x in g.used && x !in order
    requires FeerateSorted(g, order)
    ensures NoDup(order') && Elems(order') == Elems(order) + {x} && FeerateSorted(g, order')
  {
    var k := |order|;
    while k > 0 && FeerateBefore(g, x, order[k - 1])
      invariant 0 <= k <= |order|
      invariant forall j :: k <= j < |order| ==> FeerateBefore(g, x, order[j])
    {
      k := k - 1;
    }
    order' := order[..k] + [x] + order[k..];
    AtSize(g, x);
    forall j | 0 <= j < |order| ensures j < k ==> !At(g.Rates(), x).Better(At(g.Rates(), order[j]))
      ensures j >= k ==> !At(g.Rates(), order[j]).Better(At(g.Rates(), x))
    {
      assert order[j] in Elems(order);
      AtSize(g, order[j]);
      if j >= k {
        assert FeerateBefore(g, x, order[j]);
        if At(g.Rates(), x).Better(At(g.Rates(), order[j])) {
          BetterAsym(At(g.Rates(), x), At(g.Rates(), order[j]));
        } else {
          NotBetterSelf(At(g.Rates(), x));
        }
      } else if j < k - 1 {
        assert order[k - 1] in Elems(order);
        AtSize(g, order[k - 1]);
        AtLeastTrans(At(g.Rates(), order[j]), At(g.Rates(), order[k - 1]), At(g.Rates(), x));
      }
    }
    InsertedSorted(g, order, x, k);
  }

  lemma InsertedSorted(g: Graph, order: seq<nat>, x: nat, k: nat)
    requires k <= |order| && FeerateSorted(g, order) && NoDup(order) && x !in order
    requires forall j :: 0 <= j < k ==> !At(g.Rates(), x).Better(At(g.Rates(), order[j]))
    requires forall j :: k <= j < |order| ==> !At(g.Rates(), order[j]).Better(At(g.Rates(), x))
    ensures FeerateSorted(g, order[..k] + [x] + order[k..])
    ensures NoDup(order[..k] + [x] + order[k..])
    ensures Elems(order[..k] + [x] + order[k..]) == Elems(order) + {x}
  {
    var l := order[..k] + [x] + order[k..];
    assert order == order[..k] + order[k..];
    forall i, j | 0 <= i < j < |l| ensures !At(g.Rates(), l[j]).Better(At(g.Rates(), l[i])) && l[i] != l[j] {
      var i' := if i < k then i else i - 1;
      var j' := if j < k then j else j - 1;
      assert i != k ==> l[i] == order[i'];
      assert j != k ==> l[j] == order[j'];
    }
  }

  method SortPositions(g: Graph) returns (order: seq<nat>)
    requires DepGraphs.Valid(g)
    ensures NoDup(order) && Elems(order) == g.used && FeerateSorted(g, order)
  {
    order := [];
    BelowAll(g.used, |g.entries|);
    assert Elems(order) == {};
    for i := 0 to |g.entries|
      invariant NoDup(order) && Elems(order) == Below(g.used, i) && FeerateSorted(g, order)
    {
      BelowStep(g.used, i);
      if i in g.used {
        assert i !in Elems(order);
        order := InsertByFeerate(g, order, i);
      }
    }
  }

  /** The reverse of a list of positions: where each position went. */
  method ReverseMapping(g: Graph, order: seq<nat>) returns (mapping: seq<nat>)
    requires WellFormed(g) && NoDup(order) && Elems(order) == g.used
    ensures |mapping| == |g.entries| && Inverses(g, mapping, order)
  {
    mapping := seq(|g.entries|, _ => 0);
    assert forall i :: 0 <= i < |order| ==> order[i] in Elems(order);
    for i := 0 to |order|
      invariant |mapping| == |g.entries|
      invariant forall k :: 0 <= k < i ==> mapping[order[k]] == k
    {
      mapping := mapping[order[i] := i];
    }
    forall i: nat | i in g.used ensures mapping[i] < |order| && order[mapping[i]] == i {
      assert i in Elems(order);
      var k :| 0 <= k < |order| && order[k] == i;
    }
  }

  // ---------------------------------------------------------------- the search finder

  class SearchCandidateFinder {
    const sortedToOriginal: seq<nat>
    const originalToSorted: seq<nat>
    /** The graph with its transactions in decreasing feerate order. */
    const sortedGraph: Graph
    /** What is left to do, in sorted positions. */
    var todo: set<nat>
    /** The graph this finder was made for. */
    ghost const original: Graph

    ghost predicate Renumbered() {
      && DepGraphs.Valid(original) && DepGraphs.Valid(sortedGraph) && SortedByFeerate(sortedGraph)
      && Isomorphic(original, sortedGraph, originalToSorted)
      && Inverses(original, originalToSorted, sortedToOriginal)
      && (forall k: nat :: k in sortedGraph.used ==> k < |sortedToOriginal|)
    }

    ghost predicate Valid()
      reads this
    {
      Renumbered() && todo <= sortedGraph.used
    }

    /** What is left to do, in the caller's positions. */
    function Left(): set<nat>
      reads this
    {
      Image(sortedToOriginal, todo)
    }

    constructor (depgraph: Graph)
      requires DepGraphs.Valid(depgraph)
      ensures Valid() && original == depgraph && Left() == depgraph.used
    {
      var order := SortPositions(depgraph);
      var mapping := ReverseMapping(depgraph, order);
      SortedRange(depgraph, mapping, order);
      var rebuilt := new DepGraph.Remap(depgraph, mapping, |order|);
      var h := rebuilt.Value();
      SortedCopy(depgraph, h, mapping, order);
      sortedToOriginal := order;
      originalToSorted := mapping;
      sortedGraph := h;
      original := depgraph;
      todo := h.used;
    }

    /** Remove transactions from what remains. */
    method MarkDone(done: set<nat>)
      requires Valid() && done != {} && done <= Left()
      modifies this
      ensures Valid() && Left() == old(Left()) - done
    {
      ImageForth(original, originalToSorted, sortedToOriginal, todo);
      ImageMinus(original, originalToSorted, sortedToOriginal, todo, done);
      todo := todo - Image(originalToSorted, done);
    }

    /**
     A topologically valid subset of what remains, at least as good as the one given; if fewer
     than maxIterations steps were used, no topologically valid subset is better, and the result is
     connected. For n transactions at most 2^(n-1) steps are used, and no more than a third of 2^n
     if no single transaction that could go first beats the set given.
     */
    method FindCandidateSet(maxIterations: nat, best: SetInfo) returns (ret: SetInfo, iterations: nat)
      requires Valid() && todo != {}
      requires best.feerate.IsEmpty() ||
        (best.Honest(original.Rates()) && Candidate(original, Left(), best.transactions) && best.feerate.size > 0)
      ensures ret.Honest(original.Rates()) && Candidate(original, Left(), ret.transactions) && ret.feerate.size > 0
      ensures !best.feerate.IsEmpty() ==> !best.feerate.Better(ret.feerate)
      ensures iterations <= maxIterations
      ensures iterations < maxIterations ==>
        CandidateTheory.Best(original, Left(), ret.transactions) && Connected(original, ret.transactions)
      ensures 2 * iterations <= Pow2(|Left()|)
      ensures !best.feerate.IsEmpty() && NoneAloneBeats(original, Left(), best.feerate) ==> 3 * iterations <= Pow2(|Left()|)
    {
      var start := best.(transactions := Image(originalToSorted, best.transactions));
      StartThere(best, start);
      var found, n := SearchSorted(sortedGraph, todo, maxIterations, start);
      ret := found.(transactions := Image(sortedToOriginal, found.transactions));
      iterations := n;
      FoundBack(found, n < maxIterations);
    }

    /** The set to start from, in sorted positions. */
    lemma StartThere(best: SetInfo, start: SetInfo)
      requires Valid() && start == best.(transactions := Image(originalToSorted, best.transactions))
      requires best.feerate.IsEmpty() ||
        (best.Honest(original.Rates()) && Candidate(original, Left(), best.transactions) && best.feerate.size > 0)
      ensures start.feerate.IsEmpty() ||
        (start.Honest(sortedGraph.Rates()) && Candidate(sortedGraph, todo, start.transactions) && start.feerate.size > 0)
      ensures NoneAloneBeats(original, Left(), best.feerate) ==> NoneAloneBeats(sortedGraph, todo, best.feerate)
      ensures |Left()| == |todo|
    {
      if !best.feerate.IsEmpty() {
        CandidateThere(best);
      }
      if NoneAloneBeats(original, Left(), best.feerate) {
        NoneAloneThere(best.feerate);
      }
      ImageCard(original, originalToSorted, sortedToOriginal, todo);
    }

    lemma FoundBack(found: SetInfo, optimal: bool)
      requires Valid() && found.Honest(sortedGraph.Rates()) && Candidate(sortedGraph, todo, found.transactions)
      requires optimal ==> CandidateTheory.Best(sortedGraph, todo, found.transactions)
      ensures found.(transactions := Image(sortedToOriginal, found.transactions)).Honest(original.Rates())
      ensures Candidate(original, Left(), Image(sortedToOriginal, found.transactions))
      ensures optimal ==> CandidateTheory.Best(original, Left(), Image(sortedToOriginal, found.transactions))
      ensures optimal ==> Connected(original, Image(sortedToOriginal, found.transactions))
    {
      CandidateBack(found);
      if optimal {
        BestBack(found);
        ImageForth(original, originalToSorted, sortedToOriginal, todo);
        BestConnected(original, Left(), Image(sortedToOriginal, found.transactions));
      }
    }

    /** Candidates carry over to sorted positions. */
    lemma CandidateThere(s: SetInfo)
      requires Valid() && s.Honest(original.Rates()) && Candidate(original, Left(), s.transactions)
      ensures s.(transactions := Image(originalToSorted, s.transactions)).Honest(sortedGraph.Rates())
      ensures Candidate(sortedGraph, todo, Image(originalToSorted, s.transactions))
    {
      ImageForth(original, originalToSorted, sortedToOriginal, todo);
      ImageSum(original, sortedGraph, originalToSorted, s.transactions);
      ImageClosed(original, sortedGraph, originalToSorted, Left(), s.transactions);
      ImageBack(original, originalToSorted, sortedToOriginal, s.transactions);
      ImageNonempty(sortedToOriginal, Image(originalToSorted, s.transactions), s.transactions);
    }

    /** And back. */
    lemma CandidateBack(s: SetInfo)
      requires Valid() && s.Honest(sortedGraph.Rates()) && Candidate(sortedGraph, todo, s.transactions)
      ensures s.(transactions := Image(sortedToOriginal, s.transactions)).Honest(original.Rates())
      ensures Candidate(original, Left(), Image(sortedToOriginal, s.transactions))
    {
      var t := Image(sortedToOriginal, s.transactions);
      ImageForth(original, originalToSorted, sortedToOriginal, s.transactions);
      ImageForth(original, originalToSorted, sortedToOriginal, todo);
      ImageSum(original, sortedGraph, originalToSorted, t);
      ImageNonempty(originalToSorted, t, s.transactions);
      ClosedBack(original, sortedGraph, originalToSorted, Left(), t);
    }

    /** A single transaction that could go first in sorted positions could in the caller's. */
    lemma NoneAloneThere(best: FeeFrac)
      requires Valid() && NoneAloneBeats(original, Left(), best)
      ensures NoneAloneBeats(sortedGraph, todo, best)
    {
      forall k: nat | Alone(sortedGraph, todo, k) ensures !At(sortedGraph.Rates(), k).Better(best) {
        AtSize(sortedGraph, k);
        SumSingle(sortedGraph.Rates(), k);
        CandidateBack(SetInfo({k}, At(sortedGraph.Rates(), k)));
        var x := sortedToOriginal[k];
        assert Image(sortedToOriginal, {k}) == {x};
        assert Alone(original, Left(), x);
        AtSize(original, x);
        SumSingle(original.Rates(), x);
      }
    }

    lemma BestBack(s: SetInfo)
      requires Valid() && s.Honest(sortedGraph.Rates()) && CandidateTheory.Best(sortedGraph, todo, s.transactions)
      ensures CandidateTheory.Best(original, Left(), Image(sortedToOriginal, s.transactions))
    {
      CandidateBack(s);
      var t := Image(sortedToOriginal, s.transactions);
      forall c: set<nat> | Candidate(original, Left(), c)
        ensures !Sum(original.Rates(), c).Better(Sum(original.Rates(), t))
      {
        CandidateThere(SetInfo(c, Sum(original.Rates(), c)));
      }
    }
  }

  lemma {:induction false} ImageCard(g: Graph, mapping: seq<nat>, back: seq<nat>, s: set<nat>)
    requires WellFormed(g) && Inverses(g, mapping, back) && forall k: nat :: k in s ==> k < |back|
    ensures |Image(back, s)| == |s|
  {
    if s == {} {
      assert Image(back, s) == {};
    } else {
      var k: nat :| k in s;
      ImageCard(g, mapping, back, s - {k});
      assert Image(back, s) == Image(back, s - {k}) + {back[k]};
      assert mapping[back[k]] == k;
    }
  }

  lemma ImageNonempty(mapping: seq<nat>, s: set<nat>, image: set<nat>)
    requires Image(mapping, s) == image && image != {}
    ensures s != {}
  {
  }

  lemma ClosedBack(g: Graph, h: Graph, mapping: seq<nat>, todo: set<nat>, s: set<nat>)
    requires WellFormed(g) && Isomorphic(g, h, mapping) && todo <= g.used && s <= g.used
    requires ClosedIn(h, Image(mapping, todo), Image(mapping, s))
    ensures ClosedIn(g, todo, s)
  {
    forall x: nat | x in s ensures x in todo {
      ImageMember(mapping, g.used, s, x);
      ImageMember(mapping, g.used, todo, x);
    }
    forall x: nat, y: nat | x in s && y in g.Anc(x) && y in todo ensures y in s {
      ImageMember(mapping, g.used, s, x);
      ImageMember(mapping, g.used, todo, y);
      ImageMember(mapping, g.used, s, y);
    }
  }

  lemma ImageMinus(g: Graph, mapping: seq<nat>, back: seq<nat>, t: set<nat>, done: set<nat>)
    requires WellFormed(g) && Inverses(g, mapping, back) && (forall k <- t :: k < |back|) && done <= Image(back, t)
    ensures Image(back, t - Image(mapping, done)) == Image(back, t) - done
  {
    ImageForth(g, mapping, back, t);
    forall x: nat | x in Image(back, t) ensures x in Image(back, t - Image(mapping, done)) <==> x !in done {
      var k: nat :| k in t && k < |back| && back[k] == x;
      ImageMember(mapping, g.used, done, x);
      if x in Image(back, t - Image(mapping, done)) {
        var k': nat :| k' in t - Image(mapping, done) && k' < |back| && back[k'] == x;
      }
    }
  }

  lemma SortedRange(g: Graph, mapping: seq<nat>, order: seq<nat>)
    requires WellFormed(g) && Inverses(g, mapping, order)
    ensures forall i <- g.used :: mapping[i] < |order|
    ensures |order| == 0 || |order| - 1 in Image(mapping, g.used)
  {
    if |order| > 0 {
      var x := order[|order| - 1];
      assert mapping[x] == |order| - 1;
      ImageMember(mapping, g.used, g.used, x);
    }
  }

  lemma SortedCopy(g: Graph, h: Graph, mapping: seq<nat>, order: seq<nat>)
    requires DepGraphs.Valid(g) && WellFormed(h) && Isomorphic(g, h, mapping) && Inverses(g, mapping, order)
    requires FeerateSorted(g, order)
    ensures DepGraphs.Valid(h) && SortedByFeerate(h) && (forall k: nat :: k in h.used ==> k < |order|)
    ensures Image(order, h.used) == g.used
  {
    IsomorphicValid(g, h, mapping);
    ImageBack(g, mapping, order, g.used);
    forall k: nat | k in h.used ensures k < |order| {
      SortedCopyAt(g, h, mapping, order, k);
    }
    forall i: nat, j: nat | i in h.used && j in h.used && i < j ensures !At(h.Rates(), j).Better(At(h.Rates(), i)) {
      SortedCopyAt(g, h, mapping, order, i);
      SortedCopyAt(g, h, mapping, order, j);
    }
  }

  lemma SortedCopyAt(g: Graph, h: Graph, mapping: seq<nat>, order: seq<nat>, k: nat)
    requires WellFormed(g) && SameRates(g, h, mapping) && Inverses(g, mapping, order) && k in h.used
    ensures k < |order| && At(h.Rates(), k) == At(g.Rates(), order[k])
  {
    var x: nat :| x in g.used && x < |mapping| && mapping[x] == k;
  }
}
