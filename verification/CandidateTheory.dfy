/**
 Why the bounded search for a high-feerate subset may prune what it prunes
 (comments of SearchCandidateFinder::FindCandidateSet, src/cluster_linearize.h:717-986).

 The argument follows one fixed best set `opt` through the search: as long as it beats the best
 set found so far, some work item (inc, und) is compatible with it, inc <= opt <= inc + und.
 */
module CandidateTheory {
  import opened FeeFracs
  import opened TxSets
  import opened DepGraphs
  import opened Linearizations

  /** Transactions are numbered in decreasing feerate order, smaller first among equals. */
  ghost predicate SortedByFeerate(g: Graph) {
    forall i: nat, j: nat :: i in g.used && j in g.used && i < j ==> !At(g.Rates(), j).Better(At(g.Rates(), i))
  }

  ghost predicate Searchable(g: Graph, todo: set<nat>) {
    Valid(g) && todo <= g.used && SortedByFeerate(g)
  }

  ghost predicate Candidate(g: Graph, todo: set<nat>, s: set<nat>) {
    s != {} && ClosedIn(g, todo, s)
  }

  /** No candidate is better: higher feerate, or equal feerate and smaller size. */
  ghost predicate Best(g: Graph, todo: set<nat>, opt: set<nat>) {
    && Candidate(g, todo, opt)
    && forall s: set<nat> :: Candidate(g, todo, s) ==> !Sum(g.Rates(), s).Better(Sum(g.Rates(), opt))
  }

  /** t has no ancestors left but itself. */
  ghost predicate Alone(g: Graph, todo: set<nat>, t: nat) {
    t in todo && ClosedIn(g, todo, {t})
  }

  /** No single transaction that could be output next is better than best. */
  ghost predicate NoneAloneBeats(g: Graph, todo: set<nat>, best: FeeFrac) {
    forall t: nat {:trigger Alone(g, todo, t)} :: Alone(g, todo, t) ==> !At(g.Rates(), t).Better(best)
  }

  lemma CandidateSize(g: Graph, todo: set<nat>, s: set<nat>)
    requires Valid(g) && todo <= g.used && s <= todo && s != {}
    ensures Sized(g.Rates(), s) && Sum(g.Rates(), s).size > 0
  {
    SumSize(g.Rates(), s);
  }

  lemma AtSize(g: Graph, i: nat)
    requires Valid(g) && i in g.used
    ensures i < |g.Rates()| && At(g.Rates(), i) == g.Rates()[i] && At(g.Rates(), i).size > 0
  {
  }

  // ---------------------------------------------------------------- a best set exists

  lemma {:induction false} MaxOf(g: Graph, todo: set<nat>, f: set<set<nat>>) returns (m: set<nat>)
    requires Valid(g) && todo <= g.used && f != {}
    requires forall s <- f :: s <= todo && s != {}
    ensures m in f && forall s <- f :: !Sum(g.Rates(), s).Better(Sum(g.Rates(), m))
    decreases |f|
  {
    var x :| x in f;
    CandidateSize(g, todo, x);
    if f == {x} {
      m := x;
    } else {
      var m' := MaxOf(g, todo, f - {x});
      CandidateSize(g, todo, m');
      m := if Sum(g.Rates(), x).Better(Sum(g.Rates(), m')) then x else m';
      forall s <- f ensures !Sum(g.Rates(), s).Better(Sum(g.Rates(), m)) {
        CandidateSize(g, todo, s);
        if s != x {
          assert s in f - {x};
          if m == x && Sum(g.Rates(), s).Better(Sum(g.Rates(), x)) {
            BetterTrans(Sum(g.Rates(), s), Sum(g.Rates(), x), Sum(g.Rates(), m'));
          }
        }
      }
    }
  }

  lemma BestExists(g: Graph, todo: set<nat>) returns (opt: set<nat>)
    requires Valid(g) && todo <= g.used && todo != {}
    ensures Best(g, todo, opt)
  {
    var f := set s | s <= todo && Candidate(g, todo, s);
    assert Candidate(g, todo, todo);
    assert todo in f;
    opt := MaxOf(g, todo, f);
    forall s: set<nat> | Candidate(g, todo, s) ensures !Sum(g.Rates(), s).Better(Sum(g.Rates(), opt)) {
      assert s in f;
    }
  }

  /** A best set lies within one part of any split into unrelated parts. */
  lemma BestNotSplit(g: Graph, todo: set<nat>, opt: set<nat>, cover: set<nat>, part: set<nat>)
    requires Valid(g) && todo <= g.used && Best(g, todo, opt)
    requires part <= cover <= todo && opt <= cover && Severed(g, part, cover - part)
    ensures opt <= part || opt <= cover - part
  {
    var a, b := opt * part, opt - part;
    if a != {} && b != {} {
      PiecesClosed(g, todo, opt, cover, part);
      var r := g.Rates();
      CandidateSize(g, todo, opt);
      CandidateSize(g, todo, a);
      CandidateSize(g, todo, b);
      SumSplit(r, opt, part);
      ValueAdd(Sum(r, a), Sum(r, b), SlopeOf(Sum(r, opt)));
      BetterIsAbove(Sum(r, a), Sum(r, opt));
      BetterIsAbove(Sum(r, b), Sum(r, opt));
      var candidates := Candidate(g, todo, a) && Candidate(g, todo, b);
      assert false;
    }
    assert a == {} ==> opt <= cover - part by {
      if a == {} {
        forall x: nat | x in opt ensures x in cover - part {
          assert x !in a;
        }
      }
    }
    assert b == {} ==> opt <= part by {
      if b == {} {
        forall x: nat | x in opt ensures x in part {
          assert x !in b;
        }
      }
    }
  }

  lemma BestConnected(g: Graph, todo: set<nat>, opt: set<nat>)
    requires Valid(g) && todo <= g.used && Best(g, todo, opt)
    ensures Connected(g, opt)
  {
    forall a: set<nat> | a <= opt && Severed(g, a, opt - a) ensures a == {} || a == opt {
      BestNotSplit(g, todo, opt, opt, a);
    }
  }

  lemma PiecesClosed(g: Graph, todo: set<nat>, opt: set<nat>, cover: set<nat>, part: set<nat>)
    requires ClosedIn(g, todo, opt) && opt <= cover && Severed(g, part, cover - part)
    ensures ClosedIn(g, todo, opt * part) && ClosedIn(g, todo, opt - part)
  {
    forall x: nat, y: nat | x in opt * part && y in g.Anc(x) && y in todo ensures y in opt * part {
      assert y in opt && Related(g, x, y);
      assert y in part || y in cover - part;
    }
    forall x: nat, y: nat | x in opt - part && y in g.Anc(x) && y in todo ensures y in opt - part {
      assert y in opt && Related(g, y, x);
      assert x in cover - part;
    }
  }

  // ---------------------------------------------------------------- transactions above the best

  ghost predicate ImpExact(g: Graph, todo: set<nat>, best: FeeFrac, imp: set<nat>) {
    imp <= todo && forall t: nat :: t in todo ==> (t in imp <==> At(g.Rates(), t).Higher(best))
  }

  /** If the last member of imp beats best, all of them do. */
  lemma ImpDone(g: Graph, todo: set<nat>, best: FeeFrac, imp: set<nat>, last: nat)
    requires Searchable(g, todo) && imp <= todo && best.size > 0
    requires forall t: nat :: t in todo - imp ==> !At(g.Rates(), t).Higher(best)
    requires last in imp && (forall t: nat :: t in imp ==> t <= last) && At(g.Rates(), last).Higher(best)
    ensures ImpExact(g, todo, best, imp)
  {
    forall t: nat | t in todo ensures t in imp <==> At(g.Rates(), t).Higher(best) {
      if t in imp {
        AtSize(g, t);
        AtSize(g, last);
        HigherTrans(At(g.Rates(), t), At(g.Rates(), last), best);
      } else {
        assert t in todo - imp;
      }
    }
  }

  // ---------------------------------------------------------------- the potential of a work item

  ghost predicate Compatible(inc: set<nat>, und: set<nat>, s: set<nat>) {
    inc <= s <= inc + und
  }

  /**
   pot is inc plus the undecided transactions above best that raise its feerate, taken greedily:
   each one taken lies above the result, each one left does not.
   */
  ghost predicate Greedy(g: Graph, inc: set<nat>, und: set<nat>, imp: set<nat>, pot: set<nat>) {
    && inc <= pot <= inc + (imp * und)
    && (forall t: nat :: t in pot - inc ==> At(g.Rates(), t).Higher(Sum(g.Rates(), pot)))
    && (forall t: nat :: t in (imp * und) - pot ==> !At(g.Rates(), t).Higher(Sum(g.Rates(), pot)))
  }

  /** Taking one more transaction that lies above pot keeps all taken ones above the new pot. */
  lemma GreedyStep(g: Graph, todo: set<nat>, inc: set<nat>, pot: set<nat>, pos: nat)
    requires Searchable(g, todo) && inc <= pot <= todo && inc != {} && pos in todo - pot
    requires forall t: nat :: t in pot - inc ==> t < pos && At(g.Rates(), t).Higher(Sum(g.Rates(), pot))
    requires At(g.Rates(), pos).Higher(Sum(g.Rates(), pot))
    ensures Sum(g.Rates(), pot + {pos}) == Sum(g.Rates(), pot).Add(At(g.Rates(), pos))
    ensures forall t: nat :: t in pot + {pos} - inc ==> At(g.Rates(), t).Higher(Sum(g.Rates(), pot + {pos}))
  {
    var r := g.Rates();
    CandidateSize(g, todo, pot);
    AtSize(g, pos);
    SumSingle(r, pos);
    SumUnion(r, pot, {pos});
    SumBetween(Sum(r, pot), At(r, pos));
    forall t: nat | t in pot + {pos} - inc ensures At(r, t).Higher(Sum(r, pot + {pos})) {
      if t != pos {
        assert t in pot - inc;
        AtSize(g, t);
        HigherTrans(At(r, t), At(r, pos), Sum(r, pot + {pos}));
      }
    }
  }

  /** What a set gains and loses against another. */
  lemma Balance(r: Rates, b: set<nat>, pot: set<nat>)
    ensures Sum(r, b).Add(Sum(r, pot - b)) == Sum(r, pot).Add(Sum(r, b - pot))
  {
    SumSplit(r, b, pot);
    SumSplit(r, pot, b);
    assert b * pot == pot * b;
  }

  /** Losing points above a line and gaining points below it does not lead above the line. */
  lemma BalanceBelow(b: FeeFrac, lost: FeeFrac, p: FeeFrac, gained: FeeFrac, s: Slope)
    requires b.Add(lost) == p.Add(gained)
    requires Value(lost, s) >= 0 && Value(gained, s) <= 0
    ensures Value(b, s) <= Value(p, s)
    ensures Value(lost, s) > 0 ==> Value(b, s) < Value(p, s)
  {
    ValueAdd(b, lost, s);
    ValueAdd(p, gained, s);
  }

  lemma BalanceNotBetter(b: FeeFrac, lost: FeeFrac, p: FeeFrac, gained: FeeFrac)
    requires p.size > 0 && b.Add(lost) == p.Add(gained)
    requires Value(lost, SlopeOf(p)) >= 0 && Value(gained, SlopeOf(p)) <= 0
    requires Value(lost, SlopeOf(p)) > 0 || p.size <= b.size
    ensures !b.Better(p)
  {
    BalanceBelow(b, lost, p, gained, SlopeOf(p));
    BetterIsAbove(b, p);
  }

  /** A compatible set that beats best is no better than pot. */
  lemma PotBounds(g: Graph, todo: set<nat>, best: FeeFrac, imp: set<nat>, inc: set<nat>, und: set<nat>, pot: set<nat>, b: set<nat>)
    requires Searchable(g, todo) && best.size > 0 && ImpExact(g, todo, best, imp)
    requires inc != {} && inc + und <= todo && Greedy(g, inc, und, imp, pot)
    requires Compatible(inc, und, b) && Sum(g.Rates(), b).Better(best)
    ensures !Sum(g.Rates(), b).Better(Sum(g.Rates(), pot))
  {
    var P := Sum(g.Rates(), pot);
    CandidateSize(g, todo, pot);
    HigherIsAbove(P, best);
    if P.Lower(best) {
      PotTooLow(g, todo, best, imp, inc, und, pot, b);
    } else {
      PotHighEnough(g, todo, best, imp, inc, und, pot, b);
    }
  }

  lemma PotTooLow(g: Graph, todo: set<nat>, best: FeeFrac, imp: set<nat>, inc: set<nat>, und: set<nat>, pot: set<nat>, b: set<nat>)
    requires Searchable(g, todo) && best.size > 0 && ImpExact(g, todo, best, imp)
    requires inc != {} && inc + und <= todo && Greedy(g, inc, und, imp, pot)
    requires Compatible(inc, und, b) && Sum(g.Rates(), pot).Lower(best)
    ensures !Sum(g.Rates(), b).Better(best)
  {
    var r, s := g.Rates(), SlopeOf(best);
    var P := Sum(r, pot);
    CandidateSize(g, todo, pot);
    HigherIsAbove(P, best);
    forall t: nat | t in pot - b ensures t < |r| && Value(r[t], s) >= 0 {
      AtSize(g, t);
      assert t in imp;
      HigherIsAbove(r[t], best);
    }
    SumAbove(r, pot - b, s);
    forall t: nat | t in b - pot ensures t < |r| && Value(r[t], s) <= 0 {
      AtSize(g, t);
      HigherIsAbove(r[t], best);
      if t in imp {
        assert t in (imp * und) - pot;
        HigherTrans(r[t], best, P);
      }
    }
    SumBelow(r, b - pot, s);
    Balance(r, b, pot);
    BalanceBelow(Sum(r, b), Sum(r, pot - b), P, Sum(r, b - pot), s);
    BetterIsAbove(Sum(r, b), best);
  }

  lemma PotHighEnough(g: Graph, todo: set<nat>, best: FeeFrac, imp: set<nat>, inc: set<nat>, und: set<nat>, pot: set<nat>, b: set<nat>)
    requires Searchable(g, todo) && best.size > 0 && ImpExact(g, todo, best, imp)
    requires inc != {} && inc + und <= todo && Greedy(g, inc, und, imp, pot)
    requires Compatible(inc, und, b) && !Sum(g.Rates(), pot).Lower(best)
    ensures !Sum(g.Rates(), b).Better(Sum(g.Rates(), pot))
  {
    var r := g.Rates();
    CandidateSize(g, todo, pot);
    TakenIsAbove(g, todo, inc, und, imp, pot, b);
    GainedIsBelow(g, todo, best, imp, inc, und, pot, b);
    Balance(r, b, pot);
    if pot - b == {} {
      CandidateSize(g, todo, b);
      NoDifference(pot, b);
      SumSizeMono(r, pot, b);
    }
    BalanceNotBetter(Sum(r, b), Sum(r, pot - b), Sum(r, pot), Sum(r, b - pot));
  }

  lemma GainedIsBelow(g: Graph, todo: set<nat>, best: FeeFrac, imp: set<nat>, inc: set<nat>, und: set<nat>, pot: set<nat>, b: set<nat>)
    requires Searchable(g, todo) && best.size > 0 && ImpExact(g, todo, best, imp)
    requires inc != {} && inc + und <= todo && Greedy(g, inc, und, imp, pot)
    requires Compatible(inc, und, b) && !Sum(g.Rates(), pot).Lower(best) && Sum(g.Rates(), pot).size > 0
    ensures Value(Sum(g.Rates(), b - pot), SlopeOf(Sum(g.Rates(), pot))) <= 0
  {
    var r, s := g.Rates(), SlopeOf(Sum(g.Rates(), pot));
    forall t: nat | t in b - pot ensures t < |r| && Value(r[t], s) <= 0 {
      LeftIsBelow(g, todo, best, imp, inc, und, pot, t);
    }
    SumBelow(r, b - pot, s);
  }

  lemma TakenIsAbove(g: Graph, todo: set<nat>, inc: set<nat>, und: set<nat>, imp: set<nat>, pot: set<nat>, b: set<nat>)
    requires Valid(g) && todo <= g.used && inc + und <= todo && inc <= b
    requires Greedy(g, inc, und, imp, pot) && Sum(g.Rates(), pot).size > 0
    ensures Value(Sum(g.Rates(), pot - b), SlopeOf(Sum(g.Rates(), pot))) >= 0
    ensures pot - b != {} ==> Value(Sum(g.Rates(), pot - b), SlopeOf(Sum(g.Rates(), pot))) > 0
  {
    var r := g.Rates();
    var P := Sum(r, pot);
    forall t: nat | t in pot - b ensures t < |r| && Value(r[t], SlopeOf(P)) > 0 {
      AtSize(g, t);
      assert t in pot - inc;
      HigherIsAbove(r[t], P);
    }
    SumAbove(r, pot - b, SlopeOf(P));
    if pot - b != {} {
      var t: nat :| t in pot - b;
      assert Value(Sum(r, pot - b), SlopeOf(P)) >= Value(r[t], SlopeOf(P));
    }
  }

  lemma LeftIsBelow(g: Graph, todo: set<nat>, best: FeeFrac, imp: set<nat>, inc: set<nat>, und: set<nat>, pot: set<nat>, t: nat)
    requires Searchable(g, todo) && best.size > 0 && ImpExact(g, todo, best, imp)
    requires inc != {} && inc + und <= todo && Greedy(g, inc, und, imp, pot) && t in und - pot
    requires !Sum(g.Rates(), pot).Lower(best) && Sum(g.Rates(), pot).size > 0
    ensures t < |g.Rates()| && Value(g.Rates()[t], SlopeOf(Sum(g.Rates(), pot))) <= 0
  {
    var P := Sum(g.Rates(), pot);
    AtSize(g, t);
    HigherIsAbove(At(g.Rates(), t), P);
    if t in imp {
      assert t in (imp * und) - pot;
    } else if At(g.Rates(), t).Higher(P) {
      NotLower(P, best);
      HigherTrans(At(g.Rates(), t), P, best);
    }
  }

  lemma NotLower(a: FeeFrac, b: FeeFrac)
    requires !a.Lower(b)
    ensures !b.Higher(a)
  {
  }

  /**
   The jump-ahead step: a topologically valid part of pot belongs to every best set compatible
   with the work item that still beats what has been found.
   */
  lemma JumpAhead(g: Graph, todo: set<nat>, best: FeeFrac, imp: set<nat>, inc: set<nat>, und: set<nat>, pot: set<nat>, opt: set<nat>, part: set<nat>)
    requires Searchable(g, todo) && best.size > 0 && ImpExact(g, todo, best, imp)
    requires inc != {} && inc + und <= todo && Greedy(g, inc, und, imp, pot)
    requires Best(g, todo, opt) && Compatible(inc, und, opt) && Sum(g.Rates(), opt).Better(best)
    requires ClosedIn(g, todo, part) && part <= pot
    ensures part <= opt
  {
    PotBounds(g, todo, best, imp, inc, und, pot, opt);
    ExtraIsHigher(g, todo, inc, und, imp, pot, opt, part - opt);
    BestContains(g, todo, opt, part);
  }

  lemma NoDifference(a: set<nat>, b: set<nat>)
    ensures a - b == {} <==> a <= b
  {
    if a - b == {} {
      forall x: nat | x in a ensures x in b {
        assert x !in a - b;
      }
    }
  }

  /** A best set contains every closed set whose other transactions all lie above it. */
  lemma BestContains(g: Graph, todo: set<nat>, opt: set<nat>, part: set<nat>)
    requires Valid(g) && todo <= g.used && Best(g, todo, opt) && ClosedIn(g, todo, part)
    requires forall t: nat :: t in part - opt ==> At(g.Rates(), t).Higher(Sum(g.Rates(), opt))
    ensures part <= opt
  {
    NoDifference(part, opt);
    if part - opt != {} {
      HigherPartImproves(g, todo, opt, part - opt);
      assert opt + part == opt + (part - opt);
      ClosedUnion(g, todo, opt, part);
      assert Candidate(g, todo, opt + part);
    }
  }

  lemma ClosedUnion(g: Graph, todo: set<nat>, a: set<nat>, b: set<nat>)
    requires ClosedIn(g, todo, a) && ClosedIn(g, todo, b)
    ensures ClosedIn(g, todo, a + b)
  {
  }

  lemma ExtraIsHigher(g: Graph, todo: set<nat>, inc: set<nat>, und: set<nat>, imp: set<nat>, pot: set<nat>, opt: set<nat>, extra: set<nat>)
    requires Valid(g) && todo <= g.used && inc != {} && inc + und <= todo && Greedy(g, inc, und, imp, pot)
    requires inc <= opt <= todo && extra <= pot - opt && !Sum(g.Rates(), opt).Better(Sum(g.Rates(), pot))
    ensures forall t: nat :: t in extra ==> At(g.Rates(), t).Higher(Sum(g.Rates(), opt))
  {
    CandidateSize(g, todo, opt);
    CandidateSize(g, todo, pot);
    var O, P := Sum(g.Rates(), opt), Sum(g.Rates(), pot);
    NotBetterNotHigher(O, P);
    forall t: nat | t in extra ensures At(g.Rates(), t).Higher(O) {
      assert t in pot - inc;
      AtSize(g, t);
      HigherTrans(At(g.Rates(), t), P, O);
    }
  }

  lemma NotBetterNotHigher(a: FeeFrac, b: FeeFrac)
    requires !a.Better(b)
    ensures !a.Higher(b)
  {
  }

  /** Adding transactions that all lie above a set improves it. */
  lemma HigherPartImproves(g: Graph, todo: set<nat>, s: set<nat>, extra: set<nat>)
    requires Valid(g) && todo <= g.used && s <= todo && s != {} && extra <= todo - s && extra != {}
    requires forall t: nat :: t in extra ==> At(g.Rates(), t).Higher(Sum(g.Rates(), s))
    ensures Sum(g.Rates(), s + extra).Better(Sum(g.Rates(), s))
  {
    var r := g.Rates();
    CandidateSize(g, todo, s);
    var line := SlopeOf(Sum(r, s));
    forall t: nat | t in extra ensures t < |r| && Value(r[t], line) > 0 {
      AtSize(g, t);
      HigherIsAbove(r[t], Sum(r, s));
    }
    SumAbove(r, extra, line);
    var t: nat :| t in extra;
    assert Value(Sum(r, extra), line) >= Value(r[t], line);
    SumUnion(r, s, extra);
    ValueAdd(Sum(r, s), Sum(r, extra), line);
    BetterIsAbove(Sum(r, s + extra), Sum(r, s));
  }

  // ---------------------------------------------------------------- pruning

  /** Nothing undecided lies above best, and inc does not beat it: no compatible set does. */
  lemma PruneNoImprovement(g: Graph, todo: set<nat>, best: FeeFrac, imp: set<nat>, inc: set<nat>, und: set<nat>, b: set<nat>)
    requires Searchable(g, todo) && best.size > 0 && ImpExact(g, todo, best, imp)
    requires inc != {} && inc + und <= todo && Compatible(inc, und, b)
    requires und * imp == {} && !Sum(g.Rates(), inc).Better(best)
    ensures !Sum(g.Rates(), b).Better(best)
  {
    var r, s := g.Rates(), SlopeOf(best);
    assert inc - b == {};
    SumEmpty(r);
    forall t: nat | t in b - inc ensures t < |r| && Value(r[t], s) <= 0 {
      AtSize(g, t);
      assert t in und && t !in und * imp;
      HigherIsAbove(r[t], best);
    }
    SumBelow(r, b - inc, s);
    Balance(r, b, inc);
    BalanceBelow(Sum(r, b), Empty, Sum(r, inc), Sum(r, b - inc), s);
    BetterIsAbove(Sum(r, b), best);
    BetterIsAbove(Sum(r, inc), best);
    CandidateSize(g, todo, b);
    SumSizeMono(r, inc, b);
  }

  /** A nonempty set none of whose members is better than x is itself not better than x. */
  lemma SetNotBetter(g: Graph, todo: set<nat>, b: set<nat>, x: FeeFrac)
    requires Valid(g) && todo <= g.used && b <= todo && b != {} && x.size > 0
    requires forall t: nat :: t in b ==> !At(g.Rates(), t).Better(x)
    ensures !Sum(g.Rates(), b).Better(x)
  {
    var r, s := g.Rates(), SlopeOf(x);
    forall t: nat | t in b ensures t < |r| && Value(r[t], s) <= 0 && (Value(r[t], s) == 0 ==> r[t].size >= x.size) {
      AtSize(g, t);
      BetterIsAbove(r[t], x);
    }
    SumBelow(r, b, s);
    BetterIsAbove(Sum(r, b), x);
    CandidateSize(g, todo, b);
    SumSize(r, b);
    var t: nat :| t in b;
  }

  /** With nothing included yet, the first undecided transaction bounds every compatible set. */
  lemma PruneFirst(g: Graph, todo: set<nat>, best: FeeFrac, und: set<nat>, first: nat, b: set<nat>)
    requires Searchable(g, todo) && best.size > 0 && und <= todo && IsFirst(und, first)
    requires b != {} && b <= und && !At(g.Rates(), first).Better(best)
    ensures !Sum(g.Rates(), b).Better(best)
  {
    AtSize(g, first);
    forall t: nat | t in b ensures !At(g.Rates(), t).Better(At(g.Rates(), first)) {
      if t != first {
        assert first <= t;
      } else {
        BetterIsAbove(At(g.Rates(), first), At(g.Rates(), first));
      }
    }
    SetNotBetter(g, todo, b, At(g.Rates(), first));
    CandidateSize(g, todo, b);
    AtLeastTrans(best, At(g.Rates(), first), Sum(g.Rates(), b));
  }
}
