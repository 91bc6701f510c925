/**
 The passes of PostLinearize (src/cluster_linearize.h:1091-1295) on lists of groups.

 A forward pass takes transactions one by one; each starts as its own last group, which moves
 towards the front past groups of lower feerate, merging with those it depends on (`Place`). A
 backward pass is a forward pass over the reversed list in the mirrored graph, where ancestors and
 descendants trade places and fees are negated.
 */
module Regrouping {
  import opened Numbers
  import opened Reversal
  import opened FeeFracs
  import opened TxSets
  import opened Chunking
  import opened Diagrams
  import opened DepGraphs
  import opened Linearizations

  function Last(c: seq<nat>): nat
    requires c != []
  {
    c[|c| - 1]
  }

  /** Where group c ends up, between the groups before it and those it has already passed. */
  ghost function Place(h: Graph, before: seq<seq<nat>>, c: seq<nat>, after: seq<seq<nat>>): seq<seq<nat>>
    decreases |before|
  {
    if before == [] || !SeqSum(h.Rates(), c).Higher(SeqSum(h.Rates(), before[|before| - 1])) then before + [c] + after
    else
      var rest, p := before[..|before| - 1], before[|before| - 1];
      if AncOf(h, Elems(c)) !! Elems(p) then Place(h, rest, c, [p] + after)
      else Place(h, rest, p + c, after)
  }

  /** The groups at the end of a forward pass over l. */
  ghost function Regroup(h: Graph, l: seq<nat>): seq<seq<nat>> {
    if l == [] then [] else Place(h, Regroup(h, l[..|l| - 1]), [Last(l)], [])
  }

  /** Ancestors and descendants trade places and fees are negated. */
  function Mirror(g: Graph): Graph {
    g.(entries := seq(|g.entries|, i requires 0 <= i < |g.entries| =>
      Entry(g.entries[i].feerate.Negate(), g.entries[i].descendants, g.entries[i].ancestors)))
  }

  ghost function ForwardPass(g: Graph, l: seq<nat>): seq<nat> {
    Flatten(Regroup(g, l))
  }

  ghost function BackwardPass(g: Graph, l: seq<nat>): seq<nat> {
    Reversed(ForwardPass(Mirror(g), Reversed(l)))
  }

  ghost function PostLinearized(g: Graph, l: seq<nat>): seq<nat> {
    ForwardPass(g, BackwardPass(g, l))
  }

  // ---------------------------------------------------------------- one merge or swap

  ghost predicate AllConnected(h: Graph, gs: seq<seq<nat>>) {
    forall i :: 0 <= i < |gs| ==> Connected(h, Elems(gs[i]))
  }

  /** Solid connected groups that together linearize todo. */
  ghost predicate Grouped(h: Graph, gs: seq<seq<nat>>, todo: set<nat>) {
    && todo <= h.used && IsLinearization(h, Flatten(gs), todo)
    && AllSolid(h.Rates(), gs) && AllConnected(h, gs)
  }

  /** Group c has a higher feerate than all groups in after. */
  ghost predicate HigherThanAll(r: Rates, c: seq<nat>, after: seq<seq<nat>>) {
    forall i :: 0 <= i < |after| ==> SeqSum(r, c).Higher(SeqSum(r, after[i]))
  }

  /** Group c is on its way to the front. */
  ghost predicate Placing(h: Graph, before: seq<seq<nat>>, c: seq<nat>, after: seq<seq<nat>>, todo: set<nat>) {
    && Grouped(h, before + [c] + after, todo)
    && NonIncreasing(h.Rates(), before + after)
    && HigherThanAll(h.Rates(), c, after)
  }

  lemma FlattenThree(a: seq<seq<nat>>, x: seq<nat>, b: seq<seq<nat>>)
    ensures Flatten(a + [x] + b) == Flatten(a) + x + Flatten(b)
  {
    FlattenSnoc(a, x);
    FlattenConcat(a + [x], b);
  }

  lemma FlattenFour(a: seq<seq<nat>>, x: seq<nat>, y: seq<nat>, b: seq<seq<nat>>)
    ensures Flatten((a + [x]) + [y] + b) == Flatten(a) + (x + (y + Flatten(b)))
    ensures Flatten(a + [x] + ([y] + b)) == Flatten(a) + (x + (y + Flatten(b)))
  {
    assert Flatten((a + [x]) + [y] + b) == Flatten(a) + (x + (y + Flatten(b))) by {
      FlattenThree(a + [x], y, b);
      FlattenSnoc(a, x);
      FourParts(Flatten(a), x, y, Flatten(b));
    }
    assert a + [x] + ([y] + b) == (a + [x]) + [y] + b;
  }

  lemma FourParts(a: seq<nat>, x: seq<nat>, y: seq<nat>, b: seq<nat>)
    ensures ((a + x) + y) + b == a + (x + (y + b))
  {
  }

  /** All groups are of known, positive size. */
  lemma GroupsSized(h: Graph, gs: seq<seq<nat>>, todo: set<nat>)
    requires Valid(h) && Grouped(h, gs, todo)
    ensures AllSized(h.Rates(), Flatten(gs))
    ensures forall i :: 0 <= i < |gs| ==> AllSized(h.Rates(), gs[i]) && SeqSum(h.Rates(), gs[i]).size > 0
  {
    SizedToAllSized(h, Flatten(gs), todo);
    forall i | 0 <= i < |gs| ensures AllSized(h.Rates(), gs[i]) && SeqSum(h.Rates(), gs[i]).size > 0 {
      ChunkSized(h.Rates(), gs, i);
    }
  }

  /** Merging c with the group before it, which it depends on. */
  lemma MergeStep(h: Graph, before: seq<seq<nat>>, p: seq<nat>, c: seq<nat>, after: seq<seq<nat>>, todo: set<nat>)
    requires Valid(h) && Placing(h, before + [p], c, after, todo)
    requires SeqSum(h.Rates(), c).Higher(SeqSum(h.Rates(), p)) && !(AncOf(h, Elems(c)) !! Elems(p))
    ensures Placing(h, before, p + c, after, todo)
    ensures Flatten(before + [p + c] + after) == Flatten((before + [p]) + [c] + after)
  {
    var r, gs, gs' := h.Rates(), (before + [p]) + [c] + after, before + [p + c] + after;
    GroupsSized(h, gs, todo);
    var n := |before|;
    assert gs[n] == p && gs[n + 1] == c;
    FlattenFour(before, p, c, after);
    FlattenThree(before, p + c, after);
    assert Flatten(before) + (p + c) + Flatten(after) == Flatten(before) + (p + (c + Flatten(after)));
    assert Flatten(gs') == Flatten(gs);
    SolidMerge(r, p, c);
    MergedConnected(h, p, c);
    forall i | 0 <= i < |gs'| ensures Solid(r, gs'[i]) && Connected(h, Elems(gs'[i])) {
      if i < n { assert gs'[i] == gs[i]; } else if i > n { assert gs'[i] == gs[i + 1]; }
    }
    AllSizedParts(r, p, c);
    SeqSumSize(r, p + c);
    MergedOrder(r, before, p, c, after);
  }

  lemma MergedOrder(r: Rates, before: seq<seq<nat>>, p: seq<nat>, c: seq<nat>, after: seq<seq<nat>>)
    requires forall i :: 0 <= i < |before + [p] + [c] + after| ==> SeqSum(r, (before + [p] + [c] + after)[i]).size > 0
    requires NonIncreasing(r, (before + [p]) + after)
    requires SeqSum(r, p + c).Higher(SeqSum(r, p)) && SeqSum(r, p + c).size > 0
    ensures NonIncreasing(r, before + after) && HigherThanAll(r, p + c, after)
  {
    var gs, xs, ys, n := before + [p] + [c] + after, (before + [p]) + after, before + after, |before|;
    forall i, j | 0 <= i < j < |ys| ensures !SeqSum(r, ys[j]).Higher(SeqSum(r, ys[i])) {
      var i', j' := if i < n then i else i + 1, if j < n then j else j + 1;
      assert xs[i'] == ys[i] && xs[j'] == ys[j];
    }
    forall i | 0 <= i < |after| ensures SeqSum(r, p + c).Higher(SeqSum(r, after[i])) {
      assert xs[n] == p && xs[n + 1 + i] == after[i] && gs[n + 2 + i] == after[i] && gs[n] == p;
      HigherTrans(SeqSum(r, p + c), SeqSum(r, p), SeqSum(r, after[i]));
    }
  }

  lemma MergedConnected(h: Graph, p: seq<nat>, c: seq<nat>)
    requires Connected(h, Elems(p)) && Connected(h, Elems(c)) && !(AncOf(h, Elems(c)) !! Elems(p))
    ensures Connected(h, Elems(p + c))
  {
    var y: nat :| y in AncOf(h, Elems(c)) && y in Elems(p);
    var x: nat :| x in Elems(c) && y in h.Anc(x);
    ConnectedUnion(h, Elems(p), Elems(c), y, x);
    ElemsConcat(p, c);
  }

  /** Swapping c with the group before it, which it does not depend on. */
  lemma SwapStep(h: Graph, before: seq<seq<nat>>, p: seq<nat>, c: seq<nat>, after: seq<seq<nat>>, todo: set<nat>)
    requires Valid(h) && Placing(h, before + [p], c, after, todo)
    requires SeqSum(h.Rates(), c).Higher(SeqSum(h.Rates(), p)) && AncOf(h, Elems(c)) !! Elems(p)
    ensures Placing(h, before, c, [p] + after, todo)
    ensures Dominates(h.Rates(), Flatten(before + [c] + ([p] + after)), Flatten((before + [p]) + [c] + after))
  {
    var r, gs, gs' := h.Rates(), (before + [p]) + [c] + after, before + [c] + ([p] + after);
    GroupsSized(h, gs, todo);
    var n := |before|;
    assert gs[n] == p && gs[n + 1] == c;
    FlattenFour(before, p, c, after);
    FlattenFour(before, c, p, after);
    SwappedLinearization(h, Flatten(before), p, c, Flatten(after), todo);
    SwapDominates(r, p, c, Flatten(after));
    DominatesAfter(r, Flatten(before), c + (p + Flatten(after)), p + (c + Flatten(after)));
    forall i | 0 <= i < |gs'| ensures Solid(r, gs'[i]) && Connected(h, Elems(gs'[i])) {
      var i' := if i == n then n + 1 else if i == n + 1 then n else i;
      assert gs'[i] == gs[i'];
    }
    assert before + ([p] + after) == (before + [p]) + after;
    forall i | 0 <= i < |[p] + after| ensures SeqSum(r, c).Higher(SeqSum(r, ([p] + after)[i])) {
      if i > 0 { assert ([p] + after)[i] == after[i - 1]; }
    }
  }

  lemma SwappedLinearization(h: Graph, a: seq<nat>, p: seq<nat>, c: seq<nat>, b: seq<nat>, todo: set<nat>)
    requires IsLinearization(h, a + (p + (c + b)), todo) && AncOf(h, Elems(c)) !! Elems(p)
    ensures IsLinearization(h, a + (c + (p + b)), todo)
  {
    var pcb, cpb := p + (c + b), c + (p + b);
    ElemsConcat(a, pcb); ElemsConcat(p, c + b); ElemsConcat(c, b);
    ElemsConcat(a, cpb); ElemsConcat(c, p + b); ElemsConcat(p, b);
    NoDupConcat(a, pcb); NoDupConcat(p, c + b); NoDupConcat(c, b);
    NoDupConcat(a, cpb); NoDupConcat(c, p + b); NoDupConcat(p, b);
    TopologicalConcat(h, a, pcb); TopologicalConcat(h, p, c + b); TopologicalConcat(h, c, b);
    assert NoneAbove(h, Elems(c), Elems(p)) by {
      forall x: nat, y: nat | x in Elems(c) && y in Elems(p) ensures y !in h.Anc(x) {
        assert y !in AncOf(h, Elems(c));
      }
    }
    TopologicalConcat(h, a, cpb); TopologicalConcat(h, c, p + b); TopologicalConcat(h, p, b);
  }

  lemma SwapDominates(r: Rates, p: seq<nat>, c: seq<nat>, b: seq<nat>)
    requires AllSized(r, p) && AllSized(r, c) && Solid(r, p) && Solid(r, c)
    requires SeqSum(r, c).Higher(SeqSum(r, p))
    ensures Dominates(r, c + (p + b), p + (c + b))
  {
    SeqSumSize(r, p);
    SeqSumSize(r, c);
    forall s: Slope ensures AsHigh(r, c + (p + b), p + (c + b), s) {
      SolidMaxPrefix(r, p, s);
      SolidMaxPrefix(r, c, s);
      TwoFirst(r, p, c, b, s);
      TwoFirst(r, c, p, b, s);
      if Value(SeqSum(r, p), s) > 0 {
        AboveStaysStrictly(SeqSum(r, p), SeqSum(r, c), s);
      }
    }
  }

  lemma TwoFirst(r: Rates, a: seq<nat>, b: seq<nat>, c: seq<nat>, s: Slope)
    ensures MaxPrefix(r, a + (b + c), s) ==
      Max(MaxPrefix(r, a, s), Value(SeqSum(r, a), s) + Max(MaxPrefix(r, b, s), Value(SeqSum(r, b), s) + MaxPrefix(r, c, s)))
  {
    MaxPrefixConcat(r, a, b + c, s);
    MaxPrefixConcat(r, b, c, s);
  }

  /** Where c stops, the groups are in non-increasing feerate order. */
  lemma StopStep(h: Graph, before: seq<seq<nat>>, c: seq<nat>, after: seq<seq<nat>>, todo: set<nat>)
    requires Valid(h) && Placing(h, before, c, after, todo)
    requires before == [] || !SeqSum(h.Rates(), c).Higher(SeqSum(h.Rates(), before[|before| - 1]))
    ensures NonIncreasing(h.Rates(), before + [c] + after)
  {
    GroupsSized(h, before + [c] + after, todo);
    InsertedNonIncreasing(h.Rates(), before, c, after);
  }

  lemma InsertedNonIncreasing(r: Rates, before: seq<seq<nat>>, c: seq<nat>, after: seq<seq<nat>>)
    requires forall i :: 0 <= i < |before + [c] + after| ==> SeqSum(r, (before + [c] + after)[i]).size > 0
    requires NonIncreasing(r, before + after) && HigherThanAll(r, c, after)
    requires before == [] || !SeqSum(r, c).Higher(SeqSum(r, before[|before| - 1]))
    ensures NonIncreasing(r, before + [c] + after)
  {
    var gs, xs, n := before + [c] + after, before + after, |before|;
    forall i | 0 <= i < n ensures !SeqSum(r, c).Higher(SeqSum(r, before[i])) {
      assert xs[n - 1] == before[n - 1] && xs[i] == before[i];
      assert gs[n] == c && gs[n - 1] == before[n - 1] && gs[i] == before[i];
      if i < n - 1 {
        HigherTrans(SeqSum(r, before[i]), SeqSum(r, before[n - 1]), SeqSum(r, c));
      }
    }
    forall i, j | 0 <= i < j < |gs| ensures !SeqSum(r, gs[j]).Higher(SeqSum(r, gs[i])) {
      if j == n {
        assert gs[i] == before[i];
      } else if i == n {
        assert gs[j] == after[j - n - 1];
      } else {
        assert gs[i] == xs[if i < n then i else i - 1];
        assert gs[j] == xs[if j < n then j else j - 1];
      }
    }
  }

  // ---------------------------------------------------------------- whole passes

  lemma {:induction false} PlaceCorrect(h: Graph, before: seq<seq<nat>>, c: seq<nat>, after: seq<seq<nat>>, todo: set<nat>)
    requires Valid(h) && Placing(h, before, c, after, todo)
    ensures Grouped(h, Place(h, before, c, after), todo) && NonIncreasing(h.Rates(), Place(h, before, c, after))
    ensures Dominates(h.Rates(), Flatten(Place(h, before, c, after)), Flatten(before + [c] + after))
    decreases |before|
  {
    if before == [] || !SeqSum(h.Rates(), c).Higher(SeqSum(h.Rates(), before[|before| - 1])) {
      StopStep(h, before, c, after, todo);
    } else {
      var rest, p := before[..|before| - 1], before[|before| - 1];
      assert before == rest + [p];
      if AncOf(h, Elems(c)) !! Elems(p) {
        SwapStep(h, rest, p, c, after, todo);
        PlaceCorrect(h, rest, c, [p] + after, todo);
        DominatesTrans(h.Rates(), Flatten(Place(h, before, c, after)), Flatten(rest + [c] + ([p] + after)), Flatten(before + [c] + after));
      } else {
        MergeStep(h, rest, p, c, after, todo);
        PlaceCorrect(h, rest, p + c, after, todo);
      }
    }
  }

  /** A new last group of one transaction. */
  lemma PlacingStart(h: Graph, gs: seq<seq<nat>>, x: nat, todo: set<nat>)
    requires Valid(h) && Grouped(h, gs, todo) && NonIncreasing(h.Rates(), gs)
    requires x in h.used && x !in todo && NoneAbove(h, todo, {x})
    ensures Placing(h, gs, [x], [], todo + {x}) && Flatten(gs + [[x]] + []) == Flatten(gs) + [x]
  {
    FlattenThree(gs, [x], []);
    assert Flatten(gs) + [x] + [] == Flatten(gs) + [x];
    AppendedLinearization(h, Flatten(gs), x, todo);
    SingletonConnected(h, x);
    assert gs + [] == gs && Elems([x]) == {x};
  }

  lemma AppendedLinearization(h: Graph, l: seq<nat>, x: nat, todo: set<nat>)
    requires IsLinearization(h, l, todo) && x !in todo && NoneAbove(h, todo, {x})
    ensures IsLinearization(h, l + [x], todo + {x})
  {
    assert Elems([x]) == {x};
    ElemsConcat(l, [x]);
    NoDupConcat(l, [x]);
    TopologicalConcat(h, l, [x]);
  }

  /** A common suffix does not matter when the sums agree. */
  lemma DominatesBefore(r: Rates, a: seq<nat>, b: seq<nat>, t: seq<nat>)
    requires Dominates(r, a, b) && SeqSum(r, a) == SeqSum(r, b)
    ensures Dominates(r, a + t, b + t)
  {
    forall s: Slope ensures MaxPrefix(r, a + t, s) >= MaxPrefix(r, b + t, s) {
      MaxPrefixConcat(r, a, t, s);
      MaxPrefixConcat(r, b, t, s);
      DominatesAt(r, a, b, s);
    }
  }

  lemma SameSum(h: Graph, a: seq<nat>, b: seq<nat>, todo: set<nat>)
    requires Valid(h) && todo <= h.used && IsLinearization(h, a, todo) && IsLinearization(h, b, todo)
    ensures SeqSum(h.Rates(), a) == SeqSum(h.Rates(), b)
  {
    SizedSeq(h.Rates(), a);
    SizedSeq(h.Rates(), b);
  }

  lemma LinearizationInit(h: Graph, l: seq<nat>, todo: set<nat>)
    requires IsLinearization(h, l, todo) && l != []
    ensures var init := l[..|l| - 1];
      && l == init + [Last(l)] && Last(l) in todo && Last(l) !in Elems(init)
      && IsLinearization(h, init, Elems(init)) && NoneAbove(h, Elems(init), {Last(l)}) && todo == Elems(init) + {Last(l)}
  {
    var init := l[..|l| - 1];
    assert l == init + [Last(l)] && Elems([Last(l)]) == {Last(l)};
    NoDupConcat(init, [Last(l)]);
    ElemsConcat(init, [Last(l)]);
    TopologicalConcat(h, init, [Last(l)]);
  }

  /** The groups of a pass are the chunks of its output, connected, and no worse than its input. */
  lemma {:induction false} RegroupCorrect(h: Graph, l: seq<nat>, todo: set<nat>)
    requires Valid(h) && todo <= h.used && IsLinearization(h, l, todo)
    ensures Grouped(h, Regroup(h, l), todo) && NonIncreasing(h.Rates(), Regroup(h, l))
    ensures Dominates(h.Rates(), ForwardPass(h, l), l)
    decreases |l|, 0
  {
    if l != [] {
      var init := l[..|l| - 1];
      LinearizationInit(h, l, todo);
      RegroupCorrect(h, init, Elems(init));
      PassStep(h, l, todo);
      SameSum(h, ForwardPass(h, init), init, Elems(init));
      DominatesBefore(h.Rates(), ForwardPass(h, init), init, [Last(l)]);
      DominatesTrans(h.Rates(), ForwardPass(h, l), ForwardPass(h, init) + [Last(l)], l);
    }
  }

  /** One more transaction. */
  lemma PassStep(h: Graph, l: seq<nat>, todo: set<nat>)
    requires Valid(h) && todo <= h.used && IsLinearization(h, l, todo) && l != []
    ensures Grouped(h, Regroup(h, l), todo) && NonIncreasing(h.Rates(), Regroup(h, l))
    ensures Dominates(h.Rates(), ForwardPass(h, l), ForwardPass(h, l[..|l| - 1]) + [Last(l)])
    decreases |l| - 1, 1
  {
    var init := l[..|l| - 1];
    LinearizationInit(h, l, todo);
    RegroupCorrect(h, init, Elems(init));
    PlacingStart(h, Regroup(h, init), Last(l), Elems(init));
    PlaceCorrect(h, Regroup(h, init), [Last(l)], [], todo);
  }

  // ---------------------------------------------------------------- the mirrored graph

  lemma ReversedElems(l: seq<nat>)
    ensures Elems(Reversed(l)) == Elems(l) && Reversed(Reversed(l)) == l
    ensures NoDup(l) ==> NoDup(Reversed(l))
  {
    var m := Reversed(l);
    forall k: nat | k < |l| ensures m[k] == l[|l| - 1 - k] && l[k] == m[|l| - 1 - k] && Reversed(m)[k] == l[k] {
      ReversedAt(l, k);
      ReversedAt(l, |l| - 1 - k);
      ReversedAt(m, k);
    }
    if NoDup(l) {
      forall i, j | 0 <= i < j < |m| ensures m[i] != m[j] {
        assert l[|l| - 1 - j] != l[|l| - 1 - i];
      }
    }
    forall x: nat | x in l ensures x in m {
      var k :| 0 <= k < |l| && l[k] == x;
      assert m[|l| - 1 - k] == x;
    }
    forall x: nat | x in m ensures x in l {
      var k :| 0 <= k < |m| && m[k] == x;
      assert l[|l| - 1 - k] == x;
    }
  }

  lemma MirrorValid(g: Graph)
    requires Valid(g)
    ensures Valid(Mirror(g)) && Mirror(Mirror(g)) == g
  {
    var h := Mirror(g);
    forall i: nat, j: nat, k: nat | i in h.used && j in h.Anc(i) && k in h.Anc(j) ensures k in h.Anc(i) {
      assert i in g.Anc(j) && j in g.Anc(k) && i in g.Anc(k);
    }
    forall i: nat, j: nat | i in h.used && j in h.Anc(i) && i in h.Anc(j) ensures i == j {
      assert i in g.Anc(j) && j in g.Anc(i);
    }
    forall i <- h.used ensures i < |h.Rates()| && h.Rates()[i].size > 0 {
      assert g.Rates()[i].size > 0;
    }
    forall i | 0 <= i < |g.entries| ensures Mirror(h).entries[i] == g.entries[i] {
    }
  }

  lemma MirrorLinearization(g: Graph, l: seq<nat>, todo: set<nat>)
    requires Valid(g) && todo <= g.used && IsLinearization(g, l, todo)
    ensures IsLinearization(Mirror(g), Reversed(l), todo)
  {
    ReversedElems(l);
    var m := Reversed(l);
    forall i, j | 0 <= i < j < |m| ensures m[j] !in Mirror(g).Anc(m[i]) {
      ReversedAt(l, i);
      ReversedAt(l, j);
      var i', j' := |l| - 1 - j, |l| - 1 - i;
      assert l[j'] !in g.Anc(l[i']) && l[i'] in Elems(l) && l[j'] in Elems(l);
    }
  }

  function Flip(s: Slope): Slope {
    Line(-s.num, s.den)
  }

  lemma MirrorValue(g: Graph, i: nat, s: Slope)
    ensures Value(At(Mirror(g).Rates(), i), Flip(s)) == -Value(At(g.Rates(), i), s)
  {
    ValueNegate(At(g.Rates(), i), s);
  }

  /** The value of l in the mirrored graph and in the graph itself. */
  lemma {:induction false} MirrorSum(g: Graph, l: seq<nat>, s: Slope)
    ensures Value(SeqSum(Mirror(g).Rates(), Reversed(l)), Flip(s)) == -Value(SeqSum(g.Rates(), l), s)
  {
    if l != [] {
      var h := Mirror(g);
      MirrorSum(g, l[1..], s);
      SeqSumConcat(h.Rates(), Reversed(l[1..]), [l[0]]);
      ValueAdd(SeqSum(h.Rates(), Reversed(l[1..])), SeqSum(h.Rates(), [l[0]]), Flip(s));
      ValueAdd(At(g.Rates(), l[0]), SeqSum(g.Rates(), l[1..]), s);
      ValueAdd(At(h.Rates(), l[0]), Empty, Flip(s));
      MirrorValue(g, l[0], s);
    }
  }

  /** The best prefix and the best suffix of l complement each other. */
  lemma {:induction false} MirrorMax(g: Graph, l: seq<nat>, s: Slope)
    ensures MaxPrefix(g.Rates(), l, s) == MaxPrefix(Mirror(g).Rates(), Reversed(l), Flip(s)) + Value(SeqSum(g.Rates(), l), s)
  {
    if l != [] {
      var h := Mirror(g);
      MirrorMax(g, l[1..], s);
      MirrorSum(g, l[1..], s);
      MaxPrefixConcat(h.Rates(), Reversed(l[1..]), [l[0]], Flip(s));
      ValueAdd(At(g.Rates(), l[0]), SeqSum(g.Rates(), l[1..]), s);
      MirrorValue(g, l[0], s);
    }
  }

  lemma MirrorDominates(g: Graph, a: seq<nat>, b: seq<nat>)
    requires SeqSum(g.Rates(), a) == SeqSum(g.Rates(), b)
    requires Dominates(Mirror(g).Rates(), Reversed(a), Reversed(b))
    ensures Dominates(g.Rates(), a, b)
  {
    forall s: Slope ensures MaxPrefix(g.Rates(), a, s) >= MaxPrefix(g.Rates(), b, s) {
      MirrorMax(g, a, s);
      MirrorMax(g, b, s);
      DominatesAt(Mirror(g).Rates(), Reversed(a), Reversed(b), Flip(s));
    }
  }

  /** A backward pass yields a linearization that is no worse. */
  lemma BackwardCorrect(g: Graph, l: seq<nat>)
    requires Valid(g) && IsLinearization(g, l, g.used)
    ensures IsLinearization(g, BackwardPass(g, l), g.used)
    ensures Dominates(g.Rates(), BackwardPass(g, l), l)
  {
    var h := Mirror(g);
    MirrorValid(g);
    MirrorLinearization(g, l, g.used);
    RegroupCorrect(h, Reversed(l), g.used);
    MirrorLinearization(h, ForwardPass(h, Reversed(l)), g.used);
    ReversedElems(ForwardPass(h, Reversed(l)));
    SameSum(g, BackwardPass(g, l), l, g.used);
    MirrorDominates(g, BackwardPass(g, l), l);
  }

  ghost function FinalGroups(g: Graph, l: seq<nat>): seq<seq<nat>> {
    Regroup(g, BackwardPass(g, l))
  }

  /**
   The result is a valid linearization of the same transactions that is nowhere worse than the
   input, and its chunks are exactly the final groups, each of them connected.
   */
  lemma PostLinearizedCorrect(g: Graph, l: seq<nat>)
    requires Valid(g) && IsLinearization(g, l, g.used)
    ensures IsLinearization(g, PostLinearized(g, l), g.used)
    ensures AtLeastAsGood(g, PostLinearized(g, l), l)
    ensures Chunks(g.Rates(), PostLinearized(g, l)) == FinalGroups(g, l)
    ensures AllConnected(g, Chunks(g.Rates(), PostLinearized(g, l)))
    ensures NonIncreasing(g.Rates(), FinalGroups(g, l))
  {
    BackwardCorrect(g, l);
    RegroupCorrect(g, BackwardPass(g, l), g.used);
    var m := PostLinearized(g, l);
    DominatesTrans(g.Rates(), m, BackwardPass(g, l), l);
    SameSetGoodness(g, m, l, g.used);
    SizedToAllSized(g, m, g.used);
    ChunksIffIsChunking(g.Rates(), m, FinalGroups(g, l));
  }
}
