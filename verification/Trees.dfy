/**
 PostLinearize finds an optimal linearization of every tree-shaped cluster: where all transactions
 have at most one child, or all have at most one parent (src/cluster_linearize.h:1102-1104).
 */
module Trees {
  import opened Numbers
  import opened Reversal
  import opened FeeFracs
  import opened TxSets
  import opened Chunking
  import opened Diagrams
  import opened DepGraphs
  import opened Linearizations
  import opened Regrouping

  // ---------------------------------------------------------------- shapes

  /** c is a direct child of x: nothing lies strictly between them. */
  ghost predicate IsChild(g: Graph, x: nat, c: nat) {
    && c in g.used && x in g.Anc(c) && x != c
    && forall y: nat :: y in g.Anc(c) && x in g.Anc(y) ==> y == x || y == c
  }

  ghost predicate AtMostOneChild(g: Graph) {
    forall x: nat, c: nat, d: nat :: IsChild(g, x, c) && IsChild(g, x, d) ==> c == d
  }

  ghost predicate AtMostOneParent(g: Graph) {
    forall x: nat, y: nat, c: nat :: IsChild(g, x, c) && IsChild(g, y, c) ==> x == y
  }

  /** Any two descendants of a transaction are related. */
  ghost predicate Chained(g: Graph) {
    forall x: nat, a: nat, b: nat :: a in g.used && b in g.used && x in g.Anc(a) && x in g.Anc(b) ==> Related(g, a, b)
  }

  /** The first step on a path from x down to a. */
  lemma ChildTowards(g: Graph, x: nat, a: nat) returns (c: nat)
    requires Valid(g) && a in g.used && x in g.Anc(a) && x != a
    ensures IsChild(g, x, c) && c in g.Anc(a)
    decreases |g.Anc(a)|
  {
    if y: nat :| y in g.Anc(a) && x in g.Anc(y) && y != x && y != a {
      assert a !in g.Anc(y);
      assert g.Anc(y) < g.Anc(a);
      Shrinks(g.Anc(y), g.Anc(a));
      c := ChildTowards(g, x, y);
    } else {
      c := a;
    }
  }

  lemma {:induction false} OneChildRelated(g: Graph, x: nat, a: nat, b: nat)
    requires Valid(g) && AtMostOneChild(g) && a in g.used && b in g.used && x in g.Anc(a) && x in g.Anc(b)
    ensures Related(g, a, b)
    decreases |g.Desc(x)|
  {
    if x != a && x != b {
      var c := ChildTowards(g, x, a);
      var d := ChildTowards(g, x, b);
      assert x in g.used && c in g.Desc(x);
      assert g.Desc(c) < g.Desc(x) by {
        assert x !in g.Desc(c) && x in g.Desc(x);
        forall y: nat | y in g.Desc(c) ensures y in g.Desc(x) {
          assert c in g.Anc(y) && x in g.Anc(y);
        }
      }
      Shrinks(g.Desc(c), g.Desc(x));
      OneChildRelated(g, c, a, b);
    }
  }

  lemma OneChildChained(g: Graph)
    requires Valid(g) && AtMostOneChild(g)
    ensures Chained(g)
  {
    forall x: nat, a: nat, b: nat | a in g.used && b in g.used && x in g.Anc(a) && x in g.Anc(b) ensures Related(g, a, b) {
      OneChildRelated(g, x, a, b);
    }
  }

  lemma MirrorShape(g: Graph)
    requires Valid(g) && AtMostOneParent(g)
    ensures AtMostOneChild(Mirror(g))
  {
    var h := Mirror(g);
    MirrorValid(g);
    forall x: nat, c: nat | IsChild(h, x, c) ensures IsChild(g, c, x) {
      assert c in g.Anc(x) && x in g.used;
      forall y: nat | y in g.Anc(x) && c in g.Anc(y) ensures y == x || y == c {
        assert y in h.Anc(c) && x in h.Anc(y);
      }
    }
  }

  // ---------------------------------------------------------------- groups that cannot be split

  /** The last transaction of the group depends on all of it. */
  ghost predicate Rooted(h: Graph, c: seq<nat>) {
    c != [] && forall x: nat :: x in Elems(c) ==> x in h.Anc(Last(c))
  }

  /** No topologically valid part of the group lies above its own line. */
  ghost predicate Tight(h: Graph, c: seq<nat>)
    requires SeqSum(h.Rates(), c).size > 0
  {
    forall s: set<nat> :: ClosedIn(h, Elems(c), s) ==> Value(Sum(h.Rates(), s), SlopeOf(SeqSum(h.Rates(), c))) <= 0
  }

  ghost predicate TreeGroup(h: Graph, c: seq<nat>) {
    Rooted(h, c) && SeqSum(h.Rates(), c).size > 0 && Tight(h, c)
  }

  ghost predicate TreeGroups(h: Graph, gs: seq<seq<nat>>) {
    forall i :: 0 <= i < |gs| ==> TreeGroup(h, gs[i])
  }

  /** No topologically valid part of c without its last transaction lies above the line. */
  ghost predicate LooseAt(h: Graph, c: seq<nat>, line: Slope)
    requires c != []
  {
    forall s: set<nat> :: ClosedIn(h, Elems(c), s) && Last(c) !in s ==> Value(Sum(h.Rates(), s), line) <= 0
  }

  /** The same for every line that some group in before does not lie above. */
  ghost predicate Loose(h: Graph, before: seq<seq<nat>>, c: seq<nat>)
    requires c != []
  {
    forall k, line: Slope :: 0 <= k < |before| && Value(SeqSum(h.Rates(), before[k]), line) <= 0 ==> LooseAt(h, c, line)
  }

  /** The part of a set that lies in one of two disjoint groups. */
  lemma PartClosed(h: Graph, a: set<nat>, b: set<nat>, s: set<nat>)
    requires ClosedIn(h, a + b, s)
    ensures ClosedIn(h, a, s * a) && ClosedIn(h, b, s * b)
  {
  }

  lemma SplitValue(r: Rates, a: set<nat>, b: set<nat>, s: set<nat>, line: Slope)
    requires s <= a + b && a !! b
    ensures Value(Sum(r, s), line) == Value(Sum(r, s * a), line) + Value(Sum(r, s * b), line)
  {
    assert s == s * a + s * b;
    SumUnion(r, s * a, s * b);
    ValueAdd(Sum(r, s * a), Sum(r, s * b), line);
  }

  lemma LooseMergeAt(h: Graph, p: seq<nat>, c: seq<nat>, line: Slope)
    requires TreeGroup(h, p) && c != [] && Elems(p) !! Elems(c) && Sized(h.Rates(), Elems(p))
    requires Value(SeqSum(h.Rates(), p), line) <= 0 && LooseAt(h, c, line)
    ensures LooseAt(h, p + c, line)
  {
    ElemsConcat(p, c);
    var r := h.Rates();
    forall s: set<nat> | ClosedIn(h, Elems(p + c), s) && Last(p + c) !in s ensures Value(Sum(r, s), line) <= 0 {
      var s1, s2 := s * Elems(p), s * Elems(c);
      PartClosed(h, Elems(p), Elems(c), s);
      SplitValue(r, Elems(p), Elems(c), s, line);
      SumSize(r, s1);
      BelowStays(SeqSum(r, p), Sum(r, s1), line);
    }
  }

  /** In a tree, a group that one of c's members depends on lies entirely above c's last. */
  lemma RootedMerge(h: Graph, p: seq<nat>, c: seq<nat>)
    requires Valid(h) && Chained(h) && Rooted(h, p) && Rooted(h, c)
    requires Elems(p) <= h.used && Elems(c) <= h.used && NoneAbove(h, Elems(p), Elems(c))
    requires !(AncOf(h, Elems(c)) !! Elems(p))
    ensures Rooted(h, p + c)
  {
    var y: nat :| y in AncOf(h, Elems(c)) && y in Elems(p);
    var x: nat :| x in Elems(c) && y in h.Anc(x);
    var root, last := Last(p), Last(c);
    assert root in Elems(p) && last in Elems(c) && last !in h.Anc(root);
    RootAbove(h, root, last, x, y);
    RootedJoin(h, p, c);
  }

  lemma RootedJoin(h: Graph, p: seq<nat>, c: seq<nat>)
    requires Valid(h) && Rooted(h, p) && Rooted(h, c) && Last(c) in h.used && Last(p) in h.Anc(Last(c))
    ensures Rooted(h, p + c)
  {
    assert Last(p + c) == Last(c);
    forall z: nat | z in Elems(p + c) ensures z in h.Anc(Last(c)) {
      if z in Elems(p) {
        AncestorOfAncestor(h, z, Last(p), Last(c));
      } else {
        assert z in Elems(c);
      }
    }
  }

  lemma AncestorOfAncestor(h: Graph, a: nat, b: nat, c: nat)
    requires Valid(h) && c in h.used && b in h.Anc(c) && a in h.Anc(b)
    ensures a in h.Anc(c)
  {
  }

  lemma RootAbove(h: Graph, root: nat, last: nat, x: nat, y: nat)
    requires Valid(h) && Chained(h) && root in h.used && last in h.used && last !in h.Anc(root)
    requires y in h.Anc(root) && x in h.Anc(last) && y in h.Anc(x)
    ensures root in h.Anc(last)
  {
    AncestorOfAncestor(h, y, x, last);
    assert Related(h, root, last);
  }

  lemma TightFromLoose(h: Graph, c: seq<nat>)
    requires Rooted(h, c) && NoDup(c) && Sized(h.Rates(), Elems(c))
    requires SeqSum(h.Rates(), c).size > 0 && LooseAt(h, c, SlopeOf(SeqSum(h.Rates(), c)))
    ensures Tight(h, c)
  {
    var f := SeqSum(h.Rates(), c);
    forall s: set<nat> | ClosedIn(h, Elems(c), s) ensures Value(Sum(h.Rates(), s), SlopeOf(f)) <= 0 {
      if Last(c) in s {
        assert s == Elems(c);
        SizedSeq(h.Rates(), c);
        ValueIs(f, SlopeOf(f));
      }
    }
  }

  lemma TreeMerge(h: Graph, before: seq<seq<nat>>, p: seq<nat>, c: seq<nat>)
    requires Valid(h) && Chained(h) && TreeGroup(h, p) && TreeGroup(h, c)
    requires NoDup(p + c) && Elems(p) <= h.used && Elems(c) <= h.used && NoneAbove(h, Elems(p), Elems(c))
    requires SeqSum(h.Rates(), c).Higher(SeqSum(h.Rates(), p)) && !(AncOf(h, Elems(c)) !! Elems(p))
    requires Loose(h, before + [p], c)
    requires forall i :: 0 <= i < |before| ==> SeqSum(h.Rates(), before[i]).size > 0 && !SeqSum(h.Rates(), p).Higher(SeqSum(h.Rates(), before[i]))
    ensures TreeGroup(h, p + c) && Loose(h, before, p + c)
  {
    var r := h.Rates();
    RootedMerge(h, p, c);
    NoDupConcat(p, c);
    ElemsConcat(p, c);
    SeqSumConcat(r, p, c);
    var f, t := SeqSum(r, p), SeqSum(r, p + c);
    SumBetween(f, SeqSum(r, c));
    HigherIsAbove(f, t);
    assert (before + [p])[|before|] == p;
    LooseMergeAt(h, p, c, SlopeOf(t));
    TightFromLoose(h, p + c);
    forall k, line: Slope | 0 <= k < |before| && Value(SeqSum(r, before[k]), line) <= 0 ensures LooseAt(h, p + c, line) {
      var b := SeqSum(r, before[k]);
      HigherIsAbove(f, b);
      BelowStays(b, f, line);
      LooseMergeAt(h, p, c, line);
    }
  }

  // ---------------------------------------------------------------- over a pass

  ghost predicate TreePlacing(h: Graph, before: seq<seq<nat>>, c: seq<nat>, after: seq<seq<nat>>) {
    TreeGroups(h, before) && TreeGroup(h, c) && TreeGroups(h, after) && Loose(h, before, c)
  }

  /** What Placing says about the two groups about to be merged. */
  lemma Neighbours(h: Graph, before: seq<seq<nat>>, p: seq<nat>, c: seq<nat>, after: seq<seq<nat>>, todo: set<nat>)
    requires Valid(h) && Placing(h, before + [p], c, after, todo)
    ensures NoDup(p + c) && Elems(p) <= h.used && Elems(c) <= h.used && NoneAbove(h, Elems(p), Elems(c))
    ensures forall i :: 0 <= i < |before| ==> SeqSum(h.Rates(), before[i]).size > 0 && !SeqSum(h.Rates(), p).Higher(SeqSum(h.Rates(), before[i]))
  {
    FlattenFour(before, p, c, after);
    MiddleParts(h, Flatten(before), p, c, Flatten(after), todo);
    GroupsSized(h, before + [p] + [c] + after, todo);
    var gs, xs := before + [p] + [c] + after, before + [p] + after;
    forall i | 0 <= i < |before|
      ensures SeqSum(h.Rates(), before[i]).size > 0 && !SeqSum(h.Rates(), p).Higher(SeqSum(h.Rates(), before[i]))
    {
      assert gs[i] == before[i] && xs[i] == before[i] && xs[|before|] == p;
    }
  }

  /** Two neighbouring parts of a linearization. */
  lemma MiddleParts(h: Graph, a: seq<nat>, p: seq<nat>, c: seq<nat>, b: seq<nat>, todo: set<nat>)
    requires IsLinearization(h, a + (p + (c + b)), todo)
    ensures NoDup(p + c) && Elems(p) <= todo && Elems(c) <= todo && NoneAbove(h, Elems(p), Elems(c))
  {
    assert a + (p + (c + b)) == a + ((p + c) + b);
    NoDupConcat(a, (p + c) + b);
    NoDupConcat(p + c, b);
    TopologicalConcat(h, a, (p + c) + b);
    TopologicalConcat(h, p + c, b);
    TopologicalConcat(h, p, c);
    ElemsConcat(a, (p + c) + b);
    ElemsConcat(p + c, b);
    ElemsConcat(p, c);
  }

  lemma {:induction false} PlaceTree(h: Graph, before: seq<seq<nat>>, c: seq<nat>, after: seq<seq<nat>>, todo: set<nat>)
    requires Valid(h) && Chained(h) && Placing(h, before, c, after, todo) && TreePlacing(h, before, c, after)
    ensures TreeGroups(h, Place(h, before, c, after))
    decreases |before|
  {
    if before != [] && SeqSum(h.Rates(), c).Higher(SeqSum(h.Rates(), before[|before| - 1])) {
      var rest, p := before[..|before| - 1], before[|before| - 1];
      assert before == rest + [p];
      assert TreeGroup(h, p);
      if AncOf(h, Elems(c)) !! Elems(p) {
        SwapStep(h, rest, p, c, after, todo);
        assert Loose(h, rest, c) by {
          forall k, line: Slope | 0 <= k < |rest| && Value(SeqSum(h.Rates(), rest[k]), line) <= 0 ensures LooseAt(h, c, line) {
            assert before[k] == rest[k];
          }
        }
        PlaceTree(h, rest, c, [p] + after, todo);
      } else {
        Neighbours(h, rest, p, c, after, todo);
        TreeMerge(h, rest, p, c);
        MergeStep(h, rest, p, c, after, todo);
        PlaceTree(h, rest, p + c, after, todo);
      }
    }
  }

  lemma SingleTreeGroup(h: Graph, x: nat, before: seq<seq<nat>>)
    requires Valid(h) && x in h.used
    ensures TreeGroup(h, [x]) && Loose(h, before, [x])
  {
    assert Elems([x]) == {x};
    SizedSeq(h.Rates(), [x]);
    forall line: Slope ensures LooseAt(h, [x], line) {
      forall s: set<nat> | ClosedIn(h, Elems([x]), s) && x !in s ensures Value(Sum(h.Rates(), s), line) <= 0 {
        assert s == {};
        SumEmpty(h.Rates());
      }
    }
    TightFromLoose(h, [x]);
  }

  lemma {:induction false} RegroupTree(h: Graph, l: seq<nat>, todo: set<nat>)
    requires Valid(h) && Chained(h) && todo <= h.used && IsLinearization(h, l, todo)
    ensures TreeGroups(h, Regroup(h, l))
    decreases |l|
  {
    if l != [] {
      var init := l[..|l| - 1];
      LinearizationInit(h, l, todo);
      RegroupTree(h, init, Elems(init));
      RegroupCorrect(h, init, Elems(init));
      var gs := Regroup(h, init);
      PlacingStart(h, gs, Last(l), Elems(init));
      SingleTreeGroup(h, Last(l), gs);
      PlaceTree(h, gs, [Last(l)], [], todo);
    }
  }

  // ---------------------------------------------------------------- optimality

  /** A topologically valid set rises no further above a line than the tight groups do. */
  lemma {:induction false} TightBound(h: Graph, gs: seq<seq<nat>>, todo: set<nat>, s: set<nat>, line: Slope)
    requires Valid(h) && TreeGroups(h, gs) && AllSolid(h.Rates(), gs) && NonIncreasing(h.Rates(), gs)
    requires todo <= h.used && NoDup(Flatten(gs)) && Elems(Flatten(gs)) == todo && ClosedIn(h, todo, s)
    ensures Value(Sum(h.Rates(), s), line) <= MaxPrefix(h.Rates(), Flatten(gs), line)
    decreases |gs|
  {
    var r := h.Rates();
    if gs == [] {
      assert s == {};
      SumEmpty(r);
    } else {
      var c, rest := gs[0], gs[1..];
      NoDupConcat(c, Flatten(rest));
      ElemsConcat(c, Flatten(rest));
      PartClosed(h, Elems(c), Elems(Flatten(rest)), s);
      var s1, s2 := s * Elems(c), s * Elems(Flatten(rest));
      SplitValue(r, Elems(c), Elems(Flatten(rest)), s, line);
      TightBound(h, rest, Elems(Flatten(rest)), s2, line);
      TightPart(h, c, s1, line);
      SizedToAllSized(h, Flatten(gs), todo);
      FirstAndRest(r, gs, line, Value(Sum(r, s1), line), Value(Sum(r, s2), line));
    }
  }

  lemma FirstAndRest(r: Rates, gs: seq<seq<nat>>, line: Slope, v1: int, v2: int)
    requires gs != [] && AllSized(r, Flatten(gs)) && AllSolid(r, gs) && NonIncreasing(r, gs)
    requires v1 <= Max(0, Value(SeqSum(r, gs[0]), line)) && v2 <= MaxPrefix(r, Flatten(gs[1..]), line)
    ensures v1 + v2 <= MaxPrefix(r, Flatten(gs), line)
  {
    MaxPrefixConcat(r, gs[0], Flatten(gs[1..]), line);
    if Value(SeqSum(r, gs[0]), line) <= 0 {
      NothingFollows(r, gs, line);
    }
  }

  /** Behind a group that does not rise above the line, nothing does. */
  lemma NothingFollows(r: Rates, gs: seq<seq<nat>>, line: Slope)
    requires gs != [] && AllSized(r, Flatten(gs)) && AllSolid(r, gs) && NonIncreasing(r, gs)
    requires Value(SeqSum(r, gs[0]), line) <= 0
    ensures MaxPrefix(r, Flatten(gs[1..]), line) <= 0
  {
    var c, rest := gs[0], gs[1..];
    ChunkSized(r, gs, 0);
    AllSizedParts(r, c, Flatten(rest));
    forall i | 0 <= i < |rest| ensures Value(SeqSum(r, rest[i]), line) <= 0 {
      assert rest[i] == gs[i + 1];
      ChunkSized(r, rest, i);
      HigherIsAbove(SeqSum(r, rest[i]), SeqSum(r, c));
      BelowStays(SeqSum(r, c), SeqSum(r, rest[i]), line);
    }
    var k := MaxPrefixReached(r, Flatten(rest), line);
    PrefixBelow(r, rest, k, line);
  }

  /** A valid part of a tight group adds at most what the whole group adds, or nothing. */
  lemma TightPart(h: Graph, c: seq<nat>, s: set<nat>, line: Slope)
    requires Valid(h) && TreeGroup(h, c) && NoDup(c) && Elems(c) <= h.used && ClosedIn(h, Elems(c), s)
    ensures Value(Sum(h.Rates(), s), line) <= Max(0, Value(SeqSum(h.Rates(), c), line))
  {
    var r := h.Rates();
    var f := SeqSum(r, c);
    SizedSeq(r, c);
    SumSize(r, s);
    if Value(f, line) <= 0 {
      BelowStays(f, Sum(r, s), line);
    } else {
      var o := Elems(c) - s;
      assert Elems(c) * s == s;
      SumSplit(r, Elems(c), s);
      SumSize(r, o);
      ValueIs(f, SlopeOf(f));
      ValueAdd(Sum(r, s), Sum(r, o), SlopeOf(f));
      AboveStays(f, Sum(r, o), line);
      ValueAdd(Sum(r, s), Sum(r, o), line);
    }
  }

  /** A forward pass over a one-child tree dominates every linearization. */
  lemma ForwardOptimal(h: Graph, l: seq<nat>, other: seq<nat>)
    requires Valid(h) && Chained(h) && IsLinearization(h, l, h.used) && IsLinearization(h, other, h.used)
    ensures Dominates(h.Rates(), ForwardPass(h, l), other)
  {
    RegroupCorrect(h, l, h.used);
    RegroupTree(h, l, h.used);
    forall s: Slope ensures MaxPrefix(h.Rates(), ForwardPass(h, l), s) >= MaxPrefix(h.Rates(), other, s) {
      var k := MaxPrefixReached(h.Rates(), other, s);
      assert other == other[..k] + other[k..];
      PrefixClosed(h, other[..k], other[k..], h.used);
      NoDupConcat(other[..k], other[k..]);
      SizedSeq(h.Rates(), other[..k]);
      TightBound(h, Regroup(h, l), h.used, Elems(other[..k]), s);
    }
  }

  lemma BackwardOptimal(g: Graph, l: seq<nat>, other: seq<nat>)
    requires Valid(g) && Chained(Mirror(g)) && IsLinearization(g, l, g.used) && IsLinearization(g, other, g.used)
    ensures Dominates(g.Rates(), BackwardPass(g, l), other)
  {
    MirrorValid(g);
    MirrorLinearization(g, l, g.used);
    MirrorLinearization(g, other, g.used);
    ForwardOptimal(Mirror(g), Reversed(l), Reversed(other));
    ReversedElems(ForwardPass(Mirror(g), Reversed(l)));
    BackwardCorrect(g, l);
    SameSum(g, BackwardPass(g, l), other, g.used);
    MirrorDominates(g, BackwardPass(g, l), other);
  }

  /** On tree-shaped graphs the result is at least as good as every linearization. */
  lemma TreeOptimal(g: Graph, l: seq<nat>, other: seq<nat>)
    requires Valid(g) && (AtMostOneChild(g) || AtMostOneParent(g))
    requires IsLinearization(g, l, g.used) && IsLinearization(g, other, g.used)
    ensures AtLeastAsGood(g, PostLinearized(g, l), other)
  {
    BackwardCorrect(g, l);
    PostLinearizedCorrect(g, l);
    RegroupCorrect(g, BackwardPass(g, l), g.used);
    if AtMostOneChild(g) {
      OneChildChained(g);
      ForwardOptimal(g, BackwardPass(g, l), other);
    } else {
      MirrorShape(g);
      MirrorValid(g);
      OneChildChained(Mirror(g));
      BackwardOptimal(g, l, other);
      DominatesTrans(g.Rates(), PostLinearized(g, l), BackwardPass(g, l), other);
    }
    SameSetGoodness(g, PostLinearized(g, l), other, g.used);
  }
}
