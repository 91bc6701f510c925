/**
 Replacing a leaf by a same-size, higher-fee transaction at the end of the linearization and then
 post-processing never gives anything worse (src/cluster_linearize.h:1105-1110).
 */
module MovedLeaf {
  import opened Numbers
  import opened Reversal
  import opened FeeFracs
  import opened TxSets
  import opened Chunking
  import opened Diagrams
  import opened DepGraphs
  import opened Linearizations
  import opened Regrouping
  import opened Trees

  // ---------------------------------------------------------------- a group nobody depends on

  /** gs without the group that holds only t. */
  ghost function Drop(gs: seq<seq<nat>>, t: nat): seq<seq<nat>> {
    if gs == [] then [] else (if gs[0] == [t] then [] else [gs[0]]) + Drop(gs[1..], t)
  }

  lemma {:induction false} DropConcat(a: seq<seq<nat>>, b: seq<seq<nat>>, t: nat)
    ensures Drop(a + b, t) == Drop(a, t) + Drop(b, t)
  {
    if a == [] {
      assert a + b == b;
    } else {
      assert (a + b)[1..] == a[1..] + b;
      DropConcat(a[1..], b, t);
    }
  }

  lemma DropThree(a: seq<seq<nat>>, c: seq<nat>, b: seq<seq<nat>>, t: nat)
    ensures Drop(a + [c] + b, t) == Drop(a, t) + (if c == [t] then [] else [c]) + Drop(b, t)
  {
    DropConcat(a + [c], b, t);
    DropConcat(a, [c], t);
    assert Drop([c], t) == if c == [t] then [] else [c];
  }

  lemma DropEnds(p: seq<nat>, gs: seq<seq<nat>>, t: nat)
    ensures p == [t] ==> Drop(gs + [p], t) == Drop(gs, t) && Drop([p] + gs, t) == Drop(gs, t)
    ensures p != [t] ==> Drop(gs + [p], t) == Drop(gs, t) + [p] && Drop([p] + gs, t) == [p] + Drop(gs, t)
  {
    DropConcat(gs, [p], t);
    assert Drop([p], t) == if p == [t] then [] else [p];
    assert ([p] + gs)[1..] == gs;
  }

  /** What is kept by Drop was there. */
  lemma {:induction false} DropMember(gs: seq<seq<nat>>, t: nat, k: nat) returns (j: nat)
    requires k < |Drop(gs, t)|
    ensures j < |gs| && gs[j] == Drop(gs, t)[k]
  {
    if gs[0] == [t] {
      j := DropMember(gs[1..], t, k);
      j := j + 1;
    } else if k == 0 {
      j := 0;
    } else {
      j := DropMember(gs[1..], t, k - 1);
      j := j + 1;
    }
  }

  /** The group neither holds t nor depends on it. */
  ghost predicate Without(h: Graph, c: seq<nat>, t: nat) {
    t !in c && t !in AncOf(h, Elems(c))
  }

  ghost predicate Apart(h: Graph, gs: seq<seq<nat>>, t: nat) {
    forall i :: 0 <= i < |gs| ==> gs[i] == [t] || Without(h, gs[i], t)
  }

  lemma WithoutJoin(h: Graph, p: seq<nat>, c: seq<nat>, t: nat)
    requires Without(h, p, t) && Without(h, c, t)
    ensures Without(h, p + c, t)
  {
    ElemsConcat(p, c);
    assert AncOf(h, Elems(p + c)) == AncOf(h, Elems(p)) + AncOf(h, Elems(c));
  }

  /** All groups are nonempty, and those before [t] do not have a lower feerate. */
  ghost predicate Ordered(r: Rates, gs: seq<seq<nat>>, t: nat) {
    && (forall i :: 0 <= i < |gs| ==> SeqSum(r, gs[i]).size > 0)
    && (forall i, j :: 0 <= i < j < |gs| && gs[j] == [t] ==> !SeqSum(r, [t]).Higher(SeqSum(r, gs[i])))
  }

  /** If c stops behind [t], it also stops behind what precedes [t]. */
  lemma StopsWithout(r: Rates, rest: seq<seq<nat>>, c: seq<nat>, t: nat)
    requires SeqSum(r, c).size > 0 && Ordered(r, rest + [[t]], t)
    requires !SeqSum(r, c).Higher(SeqSum(r, [t]))
    ensures var d := Drop(rest, t); d == [] || !SeqSum(r, c).Higher(SeqSum(r, d[|d| - 1]))
  {
    var d := Drop(rest, t);
    if d != [] {
      var j := DropMember(rest, t, |d| - 1);
      var gs := rest + [[t]];
      assert gs[j] == rest[j] && gs[|rest|] == [t];
      HigherTrans(SeqSum(r, rest[j]), SeqSum(r, [t]), SeqSum(r, c));
    }
  }

  lemma {:induction false} PlaceApart(h: Graph, before: seq<seq<nat>>, c: seq<nat>, after: seq<seq<nat>>, t: nat)
    requires Apart(h, before, t) && Without(h, c, t) && Apart(h, after, t)
    ensures Apart(h, Place(h, before, c, after), t)
    decreases |before|
  {
    if before != [] && SeqSum(h.Rates(), c).Higher(SeqSum(h.Rates(), before[|before| - 1])) {
      var rest, p := before[..|before| - 1], before[|before| - 1];
      if AncOf(h, Elems(c)) !! Elems(p) {
        PlaceApart(h, rest, c, [p] + after, t);
      } else {
        WithoutJoin(h, p, c, t);
        PlaceApart(h, rest, p + c, after, t);
      }
    }
  }

  /** Nothing else is placed differently because of t. */
  lemma {:induction false} PlaceDrops(h: Graph, before: seq<seq<nat>>, c: seq<nat>, after: seq<seq<nat>>, t: nat)
    requires Apart(h, before, t) && Without(h, c, t) && Ordered(h.Rates(), before, t) && SeqSum(h.Rates(), c).size > 0
    ensures Drop(Place(h, before, c, after), t) == Place(h, Drop(before, t), c, Drop(after, t))
    decreases |before|
  {
    var r := h.Rates();
    if before == [] {
      DropThree(before, c, after, t);
    } else {
      var rest, p := before[..|before| - 1], before[|before| - 1];
      assert before == rest + [p];
      if !SeqSum(r, c).Higher(SeqSum(r, p)) {
        DropsStop(h, rest, p, c, after, t);
      } else if AncOf(h, Elems(c)) !! Elems(p) {
        PlaceDrops(h, rest, c, [p] + after, t);
        DropsPass(h, rest, p, c, after, t);
      } else {
        WithoutJoin(h, p, c, t);
        SeqSumConcat(r, p, c);
        PlaceDrops(h, rest, p + c, after, t);
        DropEnds(p, rest, t);
        TakeIn(h, rest, p, c, after);
        TakeIn(h, Drop(rest, t), p, c, Drop(after, t));
      }
    }
  }

  lemma DropsStop(h: Graph, rest: seq<seq<nat>>, p: seq<nat>, c: seq<nat>, after: seq<seq<nat>>, t: nat)
    requires Without(h, c, t) && Ordered(h.Rates(), rest + [p], t) && SeqSum(h.Rates(), c).size > 0
    requires !SeqSum(h.Rates(), c).Higher(SeqSum(h.Rates(), p))
    ensures Drop(Place(h, rest + [p], c, after), t) == Place(h, Drop(rest + [p], t), c, Drop(after, t))
  {
    DropThree(rest + [p], c, after, t);
    DropEnds(p, rest, t);
    if p == [t] {
      StopsWithout(h.Rates(), rest, c, t);
    }
  }

  lemma DropsPass(h: Graph, rest: seq<seq<nat>>, p: seq<nat>, c: seq<nat>, after: seq<seq<nat>>, t: nat)
    requires SeqSum(h.Rates(), c).Higher(SeqSum(h.Rates(), p)) && AncOf(h, Elems(c)) !! Elems(p)
    requires Drop(Place(h, rest, c, [p] + after), t) == Place(h, Drop(rest, t), c, Drop([p] + after, t))
    ensures Drop(Place(h, rest + [p], c, after), t) == Place(h, Drop(rest + [p], t), c, Drop(after, t))
  {
    PassOver(h, rest, p, c, after);
    DropEnds(p, rest, t);
    DropEnds(p, after, t);
    if p != [t] {
      PassOver(h, Drop(rest, t), p, c, Drop(after, t));
    }
  }

  lemma PassOver(h: Graph, rest: seq<seq<nat>>, p: seq<nat>, c: seq<nat>, after: seq<seq<nat>>)
    requires SeqSum(h.Rates(), c).Higher(SeqSum(h.Rates(), p)) && AncOf(h, Elems(c)) !! Elems(p)
    ensures Place(h, rest + [p], c, after) == Place(h, rest, c, [p] + after)
  {
    assert (rest + [p])[..|rest|] == rest;
  }

  lemma TakeIn(h: Graph, rest: seq<seq<nat>>, p: seq<nat>, c: seq<nat>, after: seq<seq<nat>>)
    requires SeqSum(h.Rates(), c).Higher(SeqSum(h.Rates(), p)) && !(AncOf(h, Elems(c)) !! Elems(p))
    ensures Place(h, rest + [p], c, after) == Place(h, rest, p + c, after)
  {
    assert (rest + [p])[..|rest|] == rest;
  }

  lemma OrderedGroups(h: Graph, gs: seq<seq<nat>>, t: nat, todo: set<nat>)
    requires Valid(h) && Grouped(h, gs, todo) && NonIncreasing(h.Rates(), gs)
    ensures Ordered(h.Rates(), gs, t)
  {
    GroupsSized(h, gs, todo);
  }

  /** A pass over [t] + l regroups l as if t were not there. */
  lemma {:induction false} RegroupDrops(h: Graph, t: nat, l: seq<nat>, todo: set<nat>)
    requires Valid(h) && todo <= h.used && IsLinearization(h, [t] + l, todo)
    requires forall x: nat :: x in Elems(l) ==> t !in h.Anc(x)
    ensures Apart(h, Regroup(h, [t] + l), t)
    ensures Drop(Regroup(h, [t] + l), t) == Regroup(h, l)
    decreases |l|
  {
    var m := [t] + l;
    LinearizationInit(h, m, todo);
    var init := m[..|m| - 1];
    if l == [] {
      assert init == [];
      assert Regroup(h, init) == [];
      assert Regroup(h, m) == [[t]];
      assert Drop([[t]], t) == [];
    } else {
      var l' := l[..|l| - 1];
      assert init == [t] + l' && Last(m) == Last(l);
      assert l == l' + [Last(l)];
      ElemsConcat(l', [Last(l)]);
      RegroupDrops(h, t, l', Elems(init));
      RegroupCorrect(h, init, Elems(init));
      OrderedGroups(h, Regroup(h, init), t, Elems(init));
      SizedSeq(h.Rates(), [Last(l)]);
      assert Without(h, [Last(l)], t) by {
        assert Last(l) in Elems(l) && Elems([Last(l)]) == {Last(l)};
        assert t in Elems(init);
      }
      PlaceApart(h, Regroup(h, init), [Last(l)], [], t);
      PlaceDrops(h, Regroup(h, init), [Last(l)], [], t);
    }
  }

  /** Dropping a group that does not rise above the line does not help. */
  lemma {:induction false} DropMax(r: Rates, gs: seq<seq<nat>>, t: nat, s: Slope)
    requires AllSized(r, Flatten(gs)) && AllSolid(r, gs) && NonIncreasing(r, gs) && Value(At(r, t), s) <= 0
    ensures MaxPrefix(r, Flatten(Drop(gs, t)), s) <= MaxPrefix(r, Flatten(gs), s)
  {
    if gs != [] {
      AllSizedParts(r, gs[0], Flatten(gs[1..]));
      DropMax(r, gs[1..], t, s);
      if gs[0] == [t] {
        ValueAdd(At(r, t), Empty, s);
        assert SeqSum(r, [t]) == At(r, t).Add(SeqSum(r, []));
        NothingFollows(r, gs, s);
        assert Drop(gs, t) == Drop(gs[1..], t);
      } else {
        assert Drop(gs, t)[1..] == Drop(gs[1..], t);
        MaxPrefixConcat(r, gs[0], Flatten(gs[1..]), s);
        MaxPrefixConcat(r, gs[0], Flatten(Drop(gs[1..], t)), s);
      }
    }
  }

  /** Whatever a pass achieves on a prefix, it keeps. */
  lemma {:induction false} RegroupPrefix(h: Graph, a: seq<nat>, b: seq<nat>, todo: set<nat>)
    requires Valid(h) && todo <= h.used && IsLinearization(h, a + b, todo)
    ensures Dominates(h.Rates(), ForwardPass(h, a + b), ForwardPass(h, a) + b)
    decreases |b|
  {
    if b == [] {
      assert a + b == a;
      assert ForwardPass(h, a) + b == ForwardPass(h, a);
    } else {
      var l, b', x := a + b, b[..|b| - 1], [Last(b)];
      assert l[..|l| - 1] == a + b' && Last(l) == Last(b) && ForwardPass(h, a) + b' + x == ForwardPass(h, a) + b;
      LinearizationInit(h, l, todo);
      RegroupPrefix(h, a, b', Elems(a + b'));
      PassStep(h, l, todo);
      PrefixSums(h, a, b', Elems(a + b'));
      DominatesBefore(h.Rates(), ForwardPass(h, a + b'), ForwardPass(h, a) + b', x);
      DominatesTrans(h.Rates(), ForwardPass(h, l), ForwardPass(h, a + b') + x, ForwardPass(h, a) + b);
    }
  }

  lemma PrefixSums(h: Graph, a: seq<nat>, b: seq<nat>, todo: set<nat>)
    requires Valid(h) && todo <= h.used && IsLinearization(h, a + b, todo)
    ensures IsLinearization(h, a, Elems(a)) && Elems(a) <= todo
    ensures SeqSum(h.Rates(), ForwardPass(h, a + b)) == SeqSum(h.Rates(), ForwardPass(h, a) + b)
  {
    var r := h.Rates();
    NoDupConcat(a, b);
    ElemsConcat(a, b);
    TopologicalConcat(h, a, b);
    RegroupCorrect(h, a + b, todo);
    RegroupCorrect(h, a, Elems(a));
    SameSum(h, ForwardPass(h, a + b), a + b, todo);
    SameSum(h, ForwardPass(h, a), a, Elems(a));
    SeqSumConcat(r, a, b);
    SeqSumConcat(r, ForwardPass(h, a), b);
  }

  // ---------------------------------------------------------------- the leaf

  /** g with t's fee increased. */
  function Bumped(g: Graph, t: nat, increase: nat): Graph
    requires t < |g.entries|
  {
    g.(entries := g.entries[t := g.entries[t].(feerate := FeeFrac(g.entries[t].feerate.fee + increase, g.entries[t].feerate.size))])
  }

  ghost predicate IsLeaf(g: Graph, t: nat) {
    t in g.used && forall x: nat :: x in g.used && t in g.Anc(x) ==> x == t
  }

  lemma BumpedValid(g: Graph, t: nat, increase: nat)
    requires Valid(g) && t in g.used
    ensures Valid(Bumped(g, t, increase))
  {
    var g' := Bumped(g, t, increase);
    assert forall i: nat :: g'.Anc(i) == g.Anc(i) && g'.Desc(i) == g.Desc(i);
    forall i <- g'.used ensures i < |g'.Rates()| && g'.Rates()[i].size > 0 {
      assert g.Rates()[i].size > 0;
    }
  }

  lemma BumpedLinearization(g: Graph, t: nat, increase: nat, l: seq<nat>, todo: set<nat>)
    requires t < |g.entries| && IsLinearization(g, l, todo)
    ensures IsLinearization(Bumped(g, t, increase), l, todo)
  {
    assert forall i: nat :: Bumped(g, t, increase).Anc(i) == g.Anc(i);
  }

  /** Moving a leaf to the end. */
  lemma LeafAtEnd(g: Graph, t: nat, a: seq<nat>, b: seq<nat>, todo: set<nat>)
    requires IsLeaf(g, t) && todo <= g.used && IsLinearization(g, a + ([t] + b), todo)
    ensures IsLinearization(g, a + b + [t], todo)
    ensures NoDup(a) && NoDup(b) && t !in Elems(a) && t !in Elems(b)
    ensures forall x: nat :: x in Elems(b) ==> x !in g.Anc(t)
  {
    assert Elems([t]) == {t};
    NoDupConcat(a, [t] + b); NoDupConcat([t], b);
    ElemsConcat(a, [t] + b); ElemsConcat([t], b);
    TopologicalConcat(g, a, [t] + b); TopologicalConcat(g, [t], b);
    ElemsConcat(a, b); ElemsConcat(a + b, [t]);
    NoDupConcat(a, b); NoDupConcat(a + b, [t]);
    TopologicalConcat(g, a, b); TopologicalConcat(g, a + b, [t]);
  }

  lemma {:induction false} ReversedConcat(a: seq<nat>, b: seq<nat>)
    ensures Reversed(a + b) == Reversed(b) + Reversed(a)
  {
    if a == [] {
      assert a + b == b && Reversed(b) + [] == Reversed(b);
    } else {
      assert (a + b)[1..] == a[1..] + b;
      ReversedConcat(a[1..], b);
    }
  }

  /** Two graphs that agree on the transactions of l. */
  lemma {:induction false} SameMax(r: Rates, r': Rates, l: seq<nat>, s: Slope)
    requires forall i :: 0 <= i < |l| ==> At(r, l[i]) == At(r', l[i])
    ensures MaxPrefix(r, l, s) == MaxPrefix(r', l, s) && SeqSum(r, l) == SeqSum(r', l)
  {
    if l != [] {
      SameMax(r, r', l[1..], s);
    }
  }

  /** In the mirrored graphs: the pass over [t] + a + b does as well as a + [t] + b did with the old fee. */
  lemma MirroredLeaf(h: Graph, h': Graph, t: nat, a: seq<nat>, b: seq<nat>, s: Slope, d: nat)
    requires Valid(h') && IsLinearization(h', [t] + (a + b), h'.used)
    requires forall x: nat :: x in Elems(a) ==> t !in h'.Anc(x)
    requires forall i: nat :: i != t ==> At(h.Rates(), i) == At(h'.Rates(), i)
    requires Value(At(h.Rates(), t), s) == Value(At(h'.Rates(), t), s) + d
    ensures MaxPrefix(h'.Rates(), ForwardPass(h', [t] + (a + b)), s) + d >= MaxPrefix(h.Rates(), a + ([t] + b), s)
  {
    var m := MaxPrefix(h'.Rates(), ForwardPass(h', [t] + (a + b)), s);
    assert m >= MaxPrefix(h'.Rates(), [t] + (a + b), s) by {
      RegroupCorrect(h', [t] + (a + b), h'.used);
      DominatesAt(h'.Rates(), ForwardPass(h', [t] + (a + b)), [t] + (a + b), s);
    }
    if Value(At(h'.Rates(), t), s) <= 0 {
      LeafPassed(h', t, a, b, s);
    }
    assert t !in Elems(a) && t !in Elems(b) by {
      NoDupConcat([t], a + b);
      ElemsConcat(a, b);
      assert t in Elems([t]);
    }
    LeafFirstOrBetween(h.Rates(), h'.Rates(), t, a, b, s, d, m);
  }

  /** With t first and worth d less, a + [t] + b is beaten if a alone is when t is worth nothing. */
  lemma LeafFirstOrBetween(r: Rates, r': Rates, t: nat, a: seq<nat>, b: seq<nat>, s: Slope, d: nat, m: int)
    requires t !in a && t !in b && forall i: nat :: i != t ==> At(r, i) == At(r', i)
    requires Value(At(r, t), s) == Value(At(r', t), s) + d
    requires m >= MaxPrefix(r', [t] + (a + b), s) && (Value(At(r', t), s) <= 0 ==> m >= MaxPrefix(r', a, s))
    ensures m + d >= MaxPrefix(r, a + ([t] + b), s)
  {
    LeafFirst(r', t, a, b, s);
    SameMax(r, r', a, s);
    SameMax(r, r', b, s);
    LeafBetween(r, t, a, b, s);
  }

  /** The best prefix with t in the middle. */
  lemma LeafBetween(r: Rates, t: nat, a: seq<nat>, b: seq<nat>, s: Slope)
    ensures MaxPrefix(r, a + ([t] + b), s) ==
            Max(MaxPrefix(r, a, s), Value(SeqSum(r, a), s) + Value(At(r, t), s) + MaxPrefix(r, b, s))
  {
    MaxPrefixConcat(r, a, [t] + b, s);
    FirstStep(r, t, b, s);
    MaxPrefixBounds(r, a, s, |a|);
    assert a[..|a|] == a;
  }

  lemma LeafFirst(r: Rates, t: nat, a: seq<nat>, b: seq<nat>, s: Slope)
    ensures MaxPrefix(r, [t] + (a + b), s) >= Value(At(r, t), s) + MaxPrefix(r, a, s)
    ensures MaxPrefix(r, [t] + (a + b), s) >= Value(SeqSum(r, a), s) + Value(At(r, t), s) + MaxPrefix(r, b, s)
  {
    FirstStep(r, t, a + b, s);
    MaxPrefixConcat(r, a, b, s);
  }

  lemma FirstStep(r: Rates, t: nat, l: seq<nat>, s: Slope)
    ensures MaxPrefix(r, [t] + l, s) == Max(0, Value(At(r, t), s) + MaxPrefix(r, l, s))
  {
    assert ([t] + l)[1..] == l;
  }

  /** If t does not rise above the line, it does not stay in the way of a. */
  lemma LeafPassed(h: Graph, t: nat, a: seq<nat>, b: seq<nat>, s: Slope)
    requires Valid(h) && IsLinearization(h, [t] + (a + b), h.used)
    requires forall x: nat :: x in Elems(a) ==> t !in h.Anc(x)
    requires Value(At(h.Rates(), t), s) <= 0
    ensures MaxPrefix(h.Rates(), ForwardPass(h, [t] + (a + b)), s) >= MaxPrefix(h.Rates(), a, s)
  {
    assert [t] + (a + b) == ([t] + a) + b;
    LeafPassedFirst(h, t, [t] + a, a, b, s);
  }

  lemma LeafPassedFirst(h: Graph, t: nat, ta: seq<nat>, a: seq<nat>, b: seq<nat>, s: Slope)
    requires Valid(h) && ta == [t] + a && IsLinearization(h, ta + b, h.used)
    requires forall x: nat :: x in Elems(a) ==> t !in h.Anc(x)
    requires Value(At(h.Rates(), t), s) <= 0
    ensures MaxPrefix(h.Rates(), ForwardPass(h, ta + b), s) >= MaxPrefix(h.Rates(), a, s)
  {
    PrefixSums(h, ta, b, h.used);
    RegroupPrefix(h, ta, b, h.used);
    DominatesPrefix(h.Rates(), ForwardPass(h, ta + b), ForwardPass(h, ta), b, s);
    LeafDropped(h, t, a, Elems(ta), s);
  }

  lemma DominatesPrefix(r: Rates, l: seq<nat>, a: seq<nat>, b: seq<nat>, s: Slope)
    requires Dominates(r, l, a + b)
    ensures MaxPrefix(r, l, s) >= MaxPrefix(r, a, s)
  {
    DominatesAt(r, l, a + b, s);
    MaxPrefixGrows(r, a, b, s);
  }

  lemma LeafDropped(h: Graph, t: nat, a: seq<nat>, todo: set<nat>, s: Slope)
    requires Valid(h) && todo <= h.used && IsLinearization(h, [t] + a, todo)
    requires forall x: nat :: x in Elems(a) ==> t !in h.Anc(x)
    requires Value(At(h.Rates(), t), s) <= 0
    ensures MaxPrefix(h.Rates(), ForwardPass(h, [t] + a), s) >= MaxPrefix(h.Rates(), a, s)
  {
    RegroupDrops(h, t, a, todo);
    RegroupCorrect(h, [t] + a, todo);
    GroupsSized(h, Regroup(h, [t] + a), todo);
    DropMax(h.Rates(), Regroup(h, [t] + a), t, s);
    NoDupConcat([t], a);
    TopologicalConcat(h, [t], a);
    ElemsConcat([t], a);
    RegroupCorrect(h, a, Elems(a));
    DominatesAt(h.Rates(), ForwardPass(h, a), a, s);
  }

  lemma BumpedValue(g: Graph, t: nat, increase: nat, s: Slope)
    requires t < |g.entries|
    ensures var g' := Bumped(g, t, increase);
      && s.den * increase >= 0
      && Value(At(g'.Rates(), t), s) == Value(At(g.Rates(), t), s) + s.den * increase
      && Value(At(Mirror(g).Rates(), t), Flip(s)) == Value(At(Mirror(g').Rates(), t), Flip(s)) + s.den * increase
  {
    var g' := Bumped(g, t, increase);
    ValueIs(At(g.Rates(), t), s);
    ValueIs(At(g'.Rates(), t), s);
    MirrorValue(g, t, s);
    MirrorValue(g', t, s);
    var f := At(g.Rates(), t).fee;
    assert s.den * (f + increase) == s.den * f + s.den * increase;
  }

  lemma BumpedSum(g: Graph, t: nat, increase: nat, a: seq<nat>, b: seq<nat>)
    requires t < |g.entries| && t !in a && t !in b
    ensures var g' := Bumped(g, t, increase);
      && SeqSum(g.Rates(), a + ([t] + b)) == SeqSum(g.Rates(), a).Add(At(g.Rates(), t)).Add(SeqSum(g.Rates(), b))
      && SeqSum(g'.Rates(), a + b + [t]) == SeqSum(g.Rates(), a).Add(At(g'.Rates(), t)).Add(SeqSum(g.Rates(), b))
  {
    var r, r' := g.Rates(), Bumped(g, t, increase).Rates();
    assert forall i: nat :: i != t ==> At(r, i) == At(r', i);
    SumAround(r, t, a, b);
    SumAround(r', t, a, b);
    SameMax(r, r', a, Line(0, 1));
    SameMax(r, r', b, Line(0, 1));
  }

  lemma SumAround(r: Rates, t: nat, a: seq<nat>, b: seq<nat>)
    ensures SeqSum(r, a + ([t] + b)) == SeqSum(r, a).Add(At(r, t)).Add(SeqSum(r, b))
    ensures SeqSum(r, a + b + [t]) == SeqSum(r, a).Add(At(r, t)).Add(SeqSum(r, b))
  {
    var x := [t];
    OneSum(r, t);
    assert SeqSum(r, a + (x + b)) == SeqSum(r, a).Add(SeqSum(r, x).Add(SeqSum(r, b))) by {
      SeqSumConcat(r, a, x + b);
      SeqSumConcat(r, x, b);
    }
    assert SeqSum(r, a + b + x) == SeqSum(r, a).Add(SeqSum(r, b)).Add(SeqSum(r, x)) by {
      SeqSumConcat(r, a, b);
      SeqSumConcat(r, a + b, x);
    }
  }

  lemma OneSum(r: Rates, t: nat)
    ensures SeqSum(r, [t]) == At(r, t)
  {
    assert SeqSum(r, [t]) == At(r, t).Add(SeqSum(r, []));
  }

  /** Reversed, the moved leaf comes first. */
  lemma ReversedLeaf(t: nat, a: seq<nat>, b: seq<nat>)
    ensures Reversed(a + b + [t]) == [t] + (Reversed(b) + Reversed(a))
    ensures Reversed(a + ([t] + b)) == Reversed(b) + ([t] + Reversed(a))
  {
    ReversedOne(t);
    assert Reversed(a + b + [t]) == [t] + (Reversed(b) + Reversed(a)) by {
      ReversedConcat(a + b, [t]);
      ReversedConcat(a, b);
    }
    assert Reversed(a + ([t] + b)) == Reversed(b) + ([t] + Reversed(a)) by {
      ReversedConcat(a, [t] + b);
      ReversedConcat([t], b);
      Reassociate(Reversed(b), [t], Reversed(a));
    }
  }

  lemma ReversedOne(t: nat)
    ensures Reversed([t]) == [t]
  {
    assert Reversed([t]) == Reversed([]) + [t];
  }

  lemma Reassociate(a: seq<nat>, b: seq<nat>, c: seq<nat>)
    ensures (a + b) + c == a + (b + c)
  {
  }

  /** The backward pass, in the mirrored graphs. */
  lemma LeafMirrored(g: Graph, t: nat, increase: nat, a: seq<nat>, b: seq<nat>, s: Slope)
    requires Valid(g) && IsLeaf(g, t) && IsLinearization(g, a + ([t] + b), g.used)
    ensures var h, h' := Mirror(g), Mirror(Bumped(g, t, increase));
      MaxPrefix(h'.Rates(), ForwardPass(h', Reversed(a + b + [t])), Flip(s)) + s.den * increase
        >= MaxPrefix(h.Rates(), Reversed(a + ([t] + b)), Flip(s))
  {
    var g' := Bumped(g, t, increase);
    var h, h' := Mirror(g), Mirror(g');
    LeafAtEnd(g, t, a, b, g.used);
    BumpedValid(g, t, increase);
    MirrorValid(g');
    BumpedLinearization(g, t, increase, a + b + [t], g.used);
    MirrorLinearization(g', a + b + [t], g.used);
    ReversedLeaf(t, a, b);
    BumpedValue(g, t, increase, s);
    LeafApart(g, g', t, b);
    assert forall i: nat :: i != t ==> At(h.Rates(), i) == At(h'.Rates(), i);
    MirroredLeaf(h, h', t, Reversed(b), Reversed(a), Flip(s), s.den * increase);
  }

  lemma LeafMax(g: Graph, t: nat, increase: nat, a: seq<nat>, b: seq<nat>, s: Slope)
    requires Valid(g) && IsLeaf(g, t) && IsLinearization(g, a + ([t] + b), g.used)
    ensures MaxPrefix(Bumped(g, t, increase).Rates(), BackwardPass(Bumped(g, t, increase), a + b + [t]), s)
         >= MaxPrefix(g.Rates(), a + ([t] + b), s)
  {
    var g' := Bumped(g, t, increase);
    var l, l' := a + ([t] + b), a + b + [t];
    LeafMirrored(g, t, increase, a, b, s);
    MirrorMax(g, l, s);
    MirrorMax(g', BackwardPass(g', l'), s);
    ReversedElems(ForwardPass(Mirror(g'), Reversed(l')));
    LeafTotals(g, t, increase, a, b, s);
  }

  /** The total grows by what the fee grows. */
  lemma LeafTotals(g: Graph, t: nat, increase: nat, a: seq<nat>, b: seq<nat>, s: Slope)
    requires Valid(g) && IsLeaf(g, t) && IsLinearization(g, a + ([t] + b), g.used)
    ensures var g' := Bumped(g, t, increase);
      Value(SeqSum(g'.Rates(), BackwardPass(g', a + b + [t])), s) == Value(SeqSum(g.Rates(), a + ([t] + b)), s) + s.den * increase
  {
    var g' := Bumped(g, t, increase);
    LeafAtEnd(g, t, a, b, g.used);
    BumpedValid(g, t, increase);
    BumpedLinearization(g, t, increase, a + b + [t], g.used);
    BackwardCorrect(g', a + b + [t]);
    SameSum(g', BackwardPass(g', a + b + [t]), a + b + [t], g.used);
    BumpedSum(g, t, increase, a, b);
    BumpedValue(g, t, increase, s);
    ThreeValues(SeqSum(g.Rates(), a), At(g.Rates(), t), At(g'.Rates(), t), SeqSum(g.Rates(), b), s);
  }

  lemma ThreeValues(a: FeeFrac, t: FeeFrac, t': FeeFrac, b: FeeFrac, s: Slope)
    ensures Value(a.Add(t').Add(b), s) - Value(a.Add(t).Add(b), s) == Value(t', s) - Value(t, s)
  {
    ValueAdd(a.Add(t'), b, s); ValueAdd(a, t', s);
    ValueAdd(a.Add(t), b, s); ValueAdd(a, t, s);
  }

  lemma LeafApart(g: Graph, g': Graph, t: nat, b: seq<nat>)
    requires Valid(g) && t in g.used && Elems(b) <= g.used && (forall i: nat :: g'.Desc(i) == g.Desc(i))
    requires forall x: nat :: x in Elems(b) ==> x !in g.Anc(t)
    ensures forall x: nat :: x in Elems(Reversed(b)) ==> t !in Mirror(g').Anc(x)
  {
    ReversedElems(b);
    forall x: nat | x in Elems(b) ensures t !in Mirror(g').Anc(x) {
      assert Mirror(g').Anc(x) == g.Desc(x);
    }
  }

  /**
   l with leaf t moved to the end and its fee increased, once post-processed, has a diagram
   nowhere below that of l.
   */
  lemma MovedLeafNotWorse(g: Graph, t: nat, increase: nat, a: seq<nat>, b: seq<nat>)
    requires Valid(g) && IsLeaf(g, t) && IsLinearization(g, a + ([t] + b), g.used)
    ensures var g' := Bumped(g, t, increase);
      var f, f' := DiagramOf(g.Rates(), a + ([t] + b)), DiagramOf(g'.Rates(), PostLinearized(g', a + b + [t]));
      RatesSized(f) && RatesSized(f') && NowhereBelow(f', f)
  {
    var g' := Bumped(g, t, increase);
    var l, l' := a + ([t] + b), a + b + [t];
    LeafAtEnd(g, t, a, b, g.used);
    BumpedValid(g, t, increase);
    BumpedLinearization(g, t, increase, l', g.used);
    BackwardCorrect(g', l');
    RegroupCorrect(g', BackwardPass(g', l'), g.used);
    SizedToAllSized(g, l, g.used);
    SizedToAllSized(g', PostLinearized(g', l'), g.used);
    SameSum(g', PostLinearized(g', l'), l', g.used);
    BumpedSum(g, t, increase, a, b);
    forall s: Slope ensures MaxPrefix(g'.Rates(), PostLinearized(g', l'), s) >= MaxPrefix(g.Rates(), l, s) {
      LeafMax(g, t, increase, a, b, s);
      DominatesAt(g'.Rates(), PostLinearized(g', l'), BackwardPass(g', l'), s);
    }
    GreaterDiagram(g'.Rates(), PostLinearized(g', l'), g.Rates(), l);
  }

  lemma GreaterDiagram(r': Rates, l': seq<nat>, r: Rates, l: seq<nat>)
    requires AllSized(r, l) && AllSized(r', l')
    requires SeqSum(r', l').size == SeqSum(r, l).size && SeqSum(r', l').fee >= SeqSum(r, l).fee
    requires forall s: Slope :: MaxPrefix(r', l', s) >= MaxPrefix(r, l, s)
    ensures RatesSized(DiagramOf(r, l)) && RatesSized(DiagramOf(r', l'))
    ensures NowhereBelow(DiagramOf(r', l'), DiagramOf(r, l))
  {
    DiagramOfProps(r, l);
    DiagramOfProps(r', l');
    forall s: Slope ensures RatesMax(DiagramOf(r', l'), s) >= RatesMax(DiagramOf(r, l), s) {
      assert MaxPrefix(r', l', s) >= MaxPrefix(r, l, s);
    }
    DiagramsFromMax(DiagramOf(r', l'), DiagramOf(r, l));
  }
}
