/**
 Finding or improving a linearization (Linearize, src/cluster_linearize.h:1001-1089).
 */
module Linearizing {
  import opened Numbers
  import opened FeeFracs
  import opened TxSets
  import opened Chunking
  import opened Diagrams
  import opened DepGraphs
  import opened Linearizations
  import opened LinearizationChunkings
  import opened CandidateTheory
  import opened CandidateFinders
  import opened CandidateSearch
  import opened SearchCosts
  import opened Merging

  /** lin orders everything but todo, and nothing in lin depends on todo. */
  ghost predicate Prefixed(g: Graph, todo: set<nat>, lin: seq<nat>) {
    && todo <= g.used && ClosedIn(g, g.used, g.used - todo)
    && IsLinearization(g, lin, g.used - todo)
  }

  /** Following lin by what remains of l is at least as good as l. */
  ghost predicate NotWorseThan(g: Graph, todo: set<nat>, lin: seq<nat>, l: seq<nat>) {
    Dominates(g.Rates(), lin + Filter(l, todo), l)
  }

  ghost predicate NotWorseThanAny(g: Graph, todo: set<nat>, lin: seq<nat>) {
    forall l: seq<nat> :: IsLinearization(g, l, g.used) ==> NotWorseThan(g, todo, lin, l)
  }

  lemma PrefixedIsFinishable(g: Graph, todo: set<nat>, lin: seq<nat>, l: seq<nat>)
    requires Prefixed(g, todo, lin) && IsLinearization(g, l, g.used) && NotWorseThan(g, todo, lin, l)
    ensures Finishable(g, l, todo, lin)
  {
    FilterIsLinearization(g, l, g.used, todo);
    assert g.used - (g.used - todo) == todo;
    FrontAndRest(g, g.used, g.used - todo, lin, Filter(l, todo));
  }

  lemma PrefixedAtStart(g: Graph)
    ensures Prefixed(g, g.used, []) && NotWorseThanAny(g, g.used, [])
  {
    forall l: seq<nat> | IsLinearization(g, l, g.used) ensures NotWorseThan(g, g.used, [], l) {
      FinishableAtStart(g, l);
    }
    assert g.used - g.used == {};
    assert Elems([]) == {};
  }

  lemma PrefixedStep(g: Graph, todo: set<nat>, lin: seq<nat>, front: set<nat>, t: seq<nat>)
    requires Prefixed(g, todo, lin) && ClosedIn(g, todo, front) && IsLinearization(g, t, front)
    ensures Prefixed(g, todo - front, lin + t)
  {
    var done := g.used - todo;
    assert g.used - (todo - front) == done + front;
    forall x: nat, y: nat | x in done + front && y in g.Anc(x) && y in g.used ensures y in done + front {
    }
    NoDupConcat(lin, t);
    ElemsConcat(lin, t);
    TopologicalConcat(g, lin, t);
  }

  lemma NotWorseStep(g: Graph, todo: set<nat>, lin: seq<nat>, front: set<nat>, t: seq<nat>, l: seq<nat>)
    requires Valid(g) && Prefixed(g, todo, lin) && ClosedIn(g, todo, front) && IsLinearization(g, t, front)
    requires IsLinearization(g, l, g.used) && NotWorseThan(g, todo, lin, l)
    requires Dominates(g.Rates(), t + Filter(Filter(l, todo), todo - front), Filter(l, todo))
    ensures NotWorseThan(g, todo - front, lin + t, l)
  {
    PrefixedIsFinishable(g, todo, lin, l);
    FinishableStep(g, l, todo, lin, front, t);
  }

  /** An optimal step keeps pace with every linearization. */
  lemma OptimalStep(g: Graph, todo: set<nat>, lin: seq<nat>, front: set<nat>, t: seq<nat>, l: seq<nat>)
    requires Valid(g) && Prefixed(g, todo, lin) && IsLinearization(g, t, front)
    requires CandidateTheory.Best(g, todo, front)
    requires IsLinearization(g, l, g.used) && NotWorseThan(g, todo, lin, l)
    ensures NotWorseThan(g, todo - front, lin + t, l)
  {
    BestIsHighest(g, todo, front);
    FilterIsLinearization(g, l, g.used, todo);
    OptimalFrontDominates(g, todo, front, t, Filter(l, todo));
    NotWorseStep(g, todo, lin, front, t, l);
  }

  lemma BestIsHighest(g: Graph, todo: set<nat>, front: set<nat>)
    requires CandidateTheory.Best(g, todo, front)
    ensures HighestFeerate(g, todo, front)
  {
    forall s: set<nat> | s != {} && ClosedIn(g, todo, s) ensures !Sum(g.Rates(), s).Higher(Sum(g.Rates(), front)) {
      assert Candidate(g, todo, s);
      NotBetterNotHigher(Sum(g.Rates(), s), Sum(g.Rates(), front));
    }
  }

  /** Intersecting a good enough set with prefixes of l's chunks keeps pace with l. */
  lemma IntersectedStep(g: Graph, todo: set<nat>, lin: seq<nat>, l: seq<nat>, all: set<nat>, front: set<nat>, t: seq<nat>)
    requires Valid(g) && Prefixed(g, todo, lin) && IsLinearization(g, l, g.used) && NotWorseThan(g, todo, lin, l)
    requires Chunked(g, Filter(l, todo), RemainingChunks(g.Rates(), l, todo), todo)
    requires Candidate(g, todo, all) && !SeqSum(g.Rates(), RemainingChunks(g.Rates(), l, todo)[0]).Higher(Sum(g.Rates(), all))
    requires IsShortestIntersection(g.Rates(), RemainingChunks(g.Rates(), l, todo), all, front)
    requires IsLinearization(g, t, front)
    ensures NotWorseThan(g, todo - front, lin + t, l)
  {
    var r, rest, cs := g.Rates(), Filter(l, todo), RemainingChunks(g.Rates(), l, todo);
    CandidateSize(g, todo, all);
    NoChunkAbove(r, rest, cs, Sum(r, all));
    IntersectionIsSafe(r, rest, cs, all, front);
    SafeFrontDominates(r, rest, cs, Sum(r, all), front, t);
    IntersectionClosed(g, rest, todo, cs, all, front);
    NotWorseStep(g, todo, lin, front, t, l);
  }

  /** The set to start the search from: the best ancestor set, or the old first chunk if no worse. */
  method Seed(anc: AncestorCandidateFinder, oldChunks: LinearizationChunking) returns (best: SetInfo)
    requires anc.Valid() && anc.todo != {} && oldChunks.Valid() && oldChunks.g == anc.g
    requires oldChunks.todo == {} || (oldChunks.todo == anc.todo && IsLinearization(oldChunks.g, oldChunks.original, oldChunks.g.used))
    ensures best.Honest(anc.g.Rates()) && Candidate(anc.g, anc.todo, best.transactions) && best.feerate.size > 0
    ensures oldChunks.todo != {} ==> oldChunks.NumChunksLeft() > 0 && !oldChunks.GetChunk(0).feerate.Better(best.feerate)
    ensures NoneAloneBeats(anc.g, anc.todo, best.feerate)
  {
    var bestPrefix := NoSet;
    ObjectEmpty(oldChunks);
    best := anc.FindCandidateSet();
    AncestorSetsBound(anc.g, anc.todo, best.feerate);
    ghost var ancestors := best.feerate;
    if oldChunks.NumChunksLeft() > 0 {
      bestPrefix := oldChunks.GetChunk(0);
      ObjectChunked(oldChunks);
      FirstChunk(oldChunks.g, Filter(oldChunks.original, oldChunks.todo), RemainingChunks(oldChunks.g.Rates(), oldChunks.original, oldChunks.todo), oldChunks.todo);
      if !bestPrefix.feerate.IsEmpty() && bestPrefix.feerate.AtLeast(best.feerate) {
        best := bestPrefix;
        NotBetterSelf(best.feerate);
        NoneAloneStays(anc.g, anc.todo, ancestors, best.feerate);
      }
    }
  }

  /** A transaction without other ancestors left is its own remaining ancestor set. */
  lemma AncestorSetsBound(g: Graph, todo: set<nat>, best: FeeFrac)
    requires Valid(g) && todo <= g.used
    requires forall i: nat :: i in todo ==> !Sum(g.Rates(), g.Anc(i) * todo).Better(best)
    ensures NoneAloneBeats(g, todo, best)
  {
    forall t: nat | Alone(g, todo, t) ensures !At(g.Rates(), t).Better(best) {
      AtSize(g, t);
      assert g.Anc(t) * todo == {t};
      SumSingle(g.Rates(), t);
    }
  }

  /** Enough iterations are left to complete the searches of all rounds, from k transactions on. */
  predicate Affordable(search: bool, iterations: nat, k: nat) {
    search && iterations > RoundCosts(k)
  }

  /** One search for the next set to output, at the given cost. */
  method NextSet(g: Graph, anc: AncestorCandidateFinder, src: SearchCandidateFinder, search: bool, oldChunks: LinearizationChunking, iterations: nat)
    returns (best: SetInfo, optimal: bool, iterationsLeft: nat)
    requires anc.Valid() && anc.g == g && anc.todo != {}
    requires search ==> src.Valid() && src.original == g && src.Left() == anc.todo
    requires oldChunks.Valid() && oldChunks.g == g
    requires oldChunks.todo == {} || (oldChunks.todo == anc.todo && IsLinearization(g, oldChunks.original, g.used))
    ensures best.Honest(g.Rates()) && Candidate(g, anc.todo, best.transactions) && best.feerate.size > 0
    ensures oldChunks.todo != {} ==> oldChunks.NumChunksLeft() > 0 && !oldChunks.GetChunk(0).feerate.Better(best.feerate)
    ensures optimal ==> CandidateTheory.Best(g, anc.todo, best.transactions)
    ensures Affordable(search, iterations, |anc.todo|) ==> optimal && Affordable(search, iterationsLeft, |anc.todo| - 1)
  {
    var seed := Seed(anc, oldChunks);
    var iterationsDoneNow, maxIterationsNow;
    best, iterationsDoneNow, maxIterationsNow, iterationsLeft := BoundedSearch(g, src, search, anc.todo, seed, iterations);
    if oldChunks.todo != {} {
      ObjectChunked(oldChunks);
      FirstChunk(g, Filter(oldChunks.original, oldChunks.todo), RemainingChunks(g.Rates(), oldChunks.original, oldChunks.todo), oldChunks.todo);
      AtLeastTrans(best.feerate, seed.feerate, oldChunks.GetChunk(0).feerate);
    }
    optimal := iterationsDoneNow != maxIterationsNow;
  }

  /** Improve the seed, with up to half of the iterations left as limit, if there are enough. */
  method BoundedSearch(ghost g: Graph, src: SearchCandidateFinder, search: bool, todo: set<nat>, seed: SetInfo, iterations: nat)
    returns (best: SetInfo, iterationsDoneNow: nat, maxIterationsNow: nat, iterationsLeft: nat)
    requires Valid(g) && todo <= g.used && todo != {}
    requires search ==> src.Valid() && src.original == g && src.Left() == todo
    requires seed.Honest(g.Rates()) && Candidate(g, todo, seed.transactions) && seed.feerate.size > 0
    ensures best.Honest(g.Rates()) && Candidate(g, todo, best.transactions) && best.feerate.size > 0
    ensures !seed.feerate.Better(best.feerate)
    ensures iterationsDoneNow != maxIterationsNow ==> CandidateTheory.Best(g, todo, best.transactions)
    ensures NoneAloneBeats(g, todo, seed.feerate) && Affordable(search, iterations, |todo|) ==>
      iterationsDoneNow != maxIterationsNow && Affordable(search, iterationsLeft, |todo| - 1)
  {
    best, iterationsLeft := seed, iterations;
    iterationsDoneNow, maxIterationsNow := 0, 0;
    NotBetterSelf(seed.feerate);
    Searched(search, |todo|, iterations);
    if search {
      var baseIterations := (|todo| + 3) / 4;
      if iterationsLeft > baseIterations {
        iterationsLeft := iterationsLeft - baseIterations;
        maxIterationsNow := (iterationsLeft + 1) / 2;
        ImageNonempty(src.sortedToOriginal, src.todo, src.Left());
        best, iterationsDoneNow := src.FindCandidateSet(maxIterationsNow, best);
        iterationsLeft := iterationsLeft - iterationsDoneNow;
      }
    }
  }

  /** What a round that can be afforded leaves for the others, whatever its search uses. */
  lemma Searched(search: bool, k: nat, iterations: nat)
    requires k > 0
    ensures Affordable(search, iterations, k) ==>
      iterations > (k + 3) / 4 && forall used: nat :: 3 * used <= Pow2(k) ==>
        used < (iterations - (k + 3) / 4 + 1) / 2 && iterations - (k + 3) / 4 - used > RoundCosts(k - 1)
  {
    if Affordable(search, iterations, k) {
      RoundAffordable(k, iterations);
    }
  }

  /** One iteration of the main loop, up to the output of a set. */
  method Round(g: Graph, anc: AncestorCandidateFinder, src: SearchCandidateFinder, search: bool, oldChunks: LinearizationChunking,
               lin: seq<nat>, optimalSoFar: bool, iterations: nat)
    returns (lin': seq<nat>, optimal: bool, iterationsLeft: nat, front: set<nat>)
    requires anc.Valid() && anc.g == g && anc.todo != {} && InStep(g, src, search, oldChunks, anc.todo)
    requires OnTrack(g, anc.todo, lin, oldChunks.original, optimalSoFar)
    ensures front != {} && front <= anc.todo && OnTrack(g, anc.todo - front, lin', oldChunks.original, optimal)
    ensures optimalSoFar && Affordable(search, iterations, |anc.todo|) ==>
      optimal && Affordable(search, iterationsLeft, |anc.todo| - 1)
  {
    var best, optimalStep;
    best, optimalStep, iterationsLeft := NextSet(g, anc, src, search, oldChunks, iterations);
    lin', optimal, front := Output(g, anc.todo, oldChunks, lin, optimalSoFar, best, optimalStep);
  }

  /** Output the set found, or the part of it that keeps pace with the old linearization. */
  method Output(g: Graph, ghost todo: set<nat>, oldChunks: LinearizationChunking, lin: seq<nat>, optimalSoFar: bool, found: SetInfo, optimalStep: bool)
    returns (lin': seq<nat>, optimal: bool, front: set<nat>)
    requires Valid(g) && todo != {} && oldChunks.Valid() && oldChunks.g == g && oldChunks.todo == (if oldChunks.original == [] then {} else todo)
    requires oldChunks.original == [] || IsLinearization(g, oldChunks.original, g.used)
    requires OnTrack(g, todo, lin, oldChunks.original, optimalSoFar)
    requires found.Honest(g.Rates()) && Candidate(g, todo, found.transactions)
    requires oldChunks.todo != {} ==> oldChunks.NumChunksLeft() > 0 && !oldChunks.GetChunk(0).feerate.Better(found.feerate)
    requires optimalStep ==> CandidateTheory.Best(g, todo, found.transactions)
    ensures front != {} && front <= todo && OnTrack(g, todo - front, lin', oldChunks.original, optimal)
    ensures optimal == (optimalSoFar && optimalStep)
  {
    ghost var all := found.transactions;
    var best := found;
    optimal := optimalSoFar;
    ObjectEmpty(oldChunks);
    if !optimalStep {
      optimal := false;
      if oldChunks.NumChunksLeft() > 0 {
        best := oldChunks.IntersectPrefixes(best);
        ObjectChunked(oldChunks);
        IntersectionClosed(g, Filter(oldChunks.original, todo), todo,
                           RemainingChunks(g.Rates(), oldChunks.original, todo), all, best.transactions);
      }
    }
    front := best.transactions;
    lin' := AppendTopo(g, lin, front);
    ghost var t :| IsLinearization(g, t, front) && lin' == lin + t;
    PrefixedStep(g, todo, lin, front, t);
    KeepsPace(g, todo, lin, t, oldChunks.original, oldChunks, all, front, optimalStep, optimal);
  }

  /**
   The result is a valid linearization, at least as good as the old one everywhere; if it is
   reported optimal, it is at least as good as every valid linearization, and it always is when
   more than 2^n iterations are allowed for n transactions.
   */
  method Linearize(g: Graph, maxIterations: nat, oldLinearization: seq<nat>) returns (linearization: seq<nat>, optimal: bool)
    requires Valid(g)
    requires oldLinearization == [] || IsLinearization(g, oldLinearization, g.used)
    ensures IsLinearization(g, linearization, g.used)
    ensures oldLinearization != [] ==> AtLeastAsGood(g, linearization, oldLinearization)
    ensures optimal ==> forall l: seq<nat> :: IsLinearization(g, l, g.used) ==> AtLeastAsGood(g, linearization, l)
    ensures maxIterations > Pow2(|g.used|) ==> optimal
  {
    linearization, optimal := [], true;
    OnTrackAtStart(g, oldLinearization);
    if g.used != {} {
      linearization, optimal := AllRounds(g, maxIterations, oldLinearization);
    }
    Finished(g, linearization, optimal, oldLinearization);
  }

  method AllRounds(g: Graph, maxIterations: nat, oldLinearization: seq<nat>) returns (linearization: seq<nat>, optimal: bool)
    requires Valid(g) && g.used != {}
    requires oldLinearization == [] || IsLinearization(g, oldLinearization, g.used)
    ensures OnTrack(g, {}, linearization, oldLinearization, optimal)
    ensures maxIterations > Pow2(|g.used|) ==> optimal
  {
    var anc := new AncestorCandidateFinder(g);
    var src := new SearchCandidateFinder(g);
    var search, iterationsLeft := StartUp(|g.used|, maxIterations);
    var oldChunks := new LinearizationChunking(g, oldLinearization);
    NoElems(oldLinearization);
    OnTrackAtStart(g, oldLinearization);
    linearization, optimal := Rounds(g, anc, src, search, oldChunks, iterationsLeft);
  }

  /** Whether to search at all: setting up the search counts as iterations, too. */
  method StartUp(k: nat, maxIterations: nat) returns (search: bool, iterationsLeft: nat)
    requires k > 0
    ensures maxIterations > Pow2(k) ==> Affordable(search, iterationsLeft, k)
  {
    CostsBelowPower(k);
    iterationsLeft := maxIterations;
    var startIterations := (k * k + 63) / 64;
    search := iterationsLeft > startIterations;
    if search {
      iterationsLeft := iterationsLeft - startIterations;
    }
  }

  /** The search finder (when used) and the old chunking agree on what remains. */
  ghost predicate InStep(g: Graph, src: SearchCandidateFinder, search: bool, oldChunks: LinearizationChunking, todo: set<nat>)
    reads src, oldChunks
  {
    && (search ==> src.Valid() && src.original == g && src.Left() == todo)
    && oldChunks.Valid() && oldChunks.g == g
    && (oldChunks.original == [] || IsLinearization(g, oldChunks.original, g.used))
    && oldChunks.todo == if oldChunks.original == [] then {} else todo
  }

  /** What has been output so far meets the guarantees. */
  ghost predicate OnTrack(g: Graph, todo: set<nat>, lin: seq<nat>, oldLin: seq<nat>, optimal: bool) {
    && Prefixed(g, todo, lin)
    && (oldLin != [] ==> NotWorseThan(g, todo, lin, oldLin))
    && (optimal ==> NotWorseThanAny(g, todo, lin))
  }

  lemma OnTrackAtStart(g: Graph, oldLin: seq<nat>)
    requires oldLin == [] || IsLinearization(g, oldLin, g.used)
    ensures OnTrack(g, g.used, [], oldLin, true)
  {
    PrefixedAtStart(g);
    if oldLin != [] {
      assert NotWorseThan(g, g.used, [], oldLin);
    }
  }

  /** The whole state of the main loop. */
  ghost predicate Running(g: Graph, anc: AncestorCandidateFinder, src: SearchCandidateFinder, search: bool,
                          oldChunks: LinearizationChunking, lin: seq<nat>, optimal: bool)
    reads anc, src, oldChunks
  {
    && anc.Valid() && anc.g == g
    && (anc.todo != {} ==> InStep(g, src, search, oldChunks, anc.todo))
    && OnTrack(g, anc.todo, lin, oldChunks.original, optimal)
  }

  /** The main loop. */
  method Rounds(g: Graph, anc: AncestorCandidateFinder, src: SearchCandidateFinder, search: bool, oldChunks: LinearizationChunking, iterations: nat)
    returns (lin: seq<nat>, optimal: bool)
    requires Running(g, anc, src, search, oldChunks, [], true)
    modifies anc, src, oldChunks
    ensures OnTrack(g, {}, lin, oldChunks.original, optimal)
    ensures Affordable(search, iterations, old(|anc.todo|)) ==> optimal
  {
    lin, optimal := [], true;
    var iterationsLeft := iterations;
    while anc.todo != {}
      invariant Running(g, anc, src, search, oldChunks, lin, optimal)
      invariant Affordable(search, iterations, old(|anc.todo|)) ==> optimal && Affordable(search, iterationsLeft, |anc.todo|)
      decreases |anc.todo|
    {
      lin, optimal, iterationsLeft := Iteration(g, anc, src, search, oldChunks, lin, optimal, iterationsLeft);
    }
  }

  /** One iteration of the main loop. */
  method Iteration(g: Graph, anc: AncestorCandidateFinder, src: SearchCandidateFinder, search: bool, oldChunks: LinearizationChunking,
                   lin: seq<nat>, optimalSoFar: bool, iterations: nat)
    returns (lin': seq<nat>, optimal: bool, iterationsLeft: nat)
    requires anc.todo != {} && Running(g, anc, src, search, oldChunks, lin, optimalSoFar)
    modifies anc, src, oldChunks
    ensures Running(g, anc, src, search, oldChunks, lin', optimal)
    ensures |anc.todo| < old(|anc.todo|)
    ensures optimalSoFar && Affordable(search, iterations, old(|anc.todo|)) ==> optimal && Affordable(search, iterationsLeft, |anc.todo|)
  {
    var front;
    lin', optimal, iterationsLeft, front := Round(g, anc, src, search, oldChunks, lin, optimalSoFar, iterations);
    FewerLeft(anc.todo, front, search, iterationsLeft);
    Advance(anc, src, search, oldChunks, front);
  }

  lemma FewerLeft(todo: set<nat>, front: set<nat>, search: bool, iterations: nat)
    requires front != {} && front <= todo
    ensures |todo| > 0 && |todo - front| < |todo|
    ensures Affordable(search, iterations, |todo| - 1) ==> Affordable(search, iterations, |todo - front|)
  {
    Shrinks(todo - front, todo);
    RoundCostsMono(|todo - front|, |todo| - 1);
  }

  /** Tell the finders and the old chunking what was output, unless everything has been. */
  method Advance(anc: AncestorCandidateFinder, src: SearchCandidateFinder, search: bool, oldChunks: LinearizationChunking, front: set<nat>)
    requires anc.Valid() && front != {} && front <= anc.todo && InStep(anc.g, src, search, oldChunks, anc.todo)
    modifies anc, src, oldChunks
    ensures anc.Valid() && anc.todo == old(anc.todo) - front
    ensures anc.todo != {} ==> InStep(anc.g, src, search, oldChunks, anc.todo)
  {
    anc.MarkDone(front);
    if anc.todo == {} {
      return;
    }
    if search {
      src.MarkDone(front);
    }
    MarkOld(oldChunks, front);
  }

  method MarkOld(oldChunks: LinearizationChunking, front: set<nat>)
    requires oldChunks.Valid() && front != {} && (oldChunks.todo == {} || front <= oldChunks.todo)
    modifies oldChunks
    ensures oldChunks.Valid()
    ensures oldChunks.todo == if old(oldChunks.todo) == {} then {} else old(oldChunks.todo) - front
  {
    ObjectEmpty(oldChunks);
    if oldChunks.NumChunksLeft() > 0 {
      oldChunks.MarkDone(front);
    }
  }

  /** One round keeps the guarantees against the old linearization, and against all of them. */
  lemma KeepsPace(g: Graph, todo: set<nat>, lin: seq<nat>, t: seq<nat>, oldLin: seq<nat>, oldChunks: LinearizationChunking,
                  all: set<nat>, front: set<nat>, optimalStep: bool, optimal: bool)
    requires Valid(g) && Prefixed(g, todo, lin) && todo != {} && IsLinearization(g, t, front)
    requires Candidate(g, todo, all) && oldChunks.Valid() && oldChunks.g == g && oldChunks.original == oldLin
    requires oldLin != [] ==> IsLinearization(g, oldLin, g.used) && oldChunks.todo == todo && NotWorseThan(g, todo, lin, oldLin)
    requires optimal ==> optimalStep && NotWorseThanAny(g, todo, lin)
    requires optimalStep ==> front == all && CandidateTheory.Best(g, todo, front)
    requires oldLin != [] ==> oldChunks.NumChunksLeft() > 0 && !oldChunks.GetChunk(0).feerate.Better(Sum(g.Rates(), all))
    requires oldLin != [] && !optimalStep ==>
      IsShortestIntersection(g.Rates(), RemainingChunks(g.Rates(), oldLin, todo), all, front)
    ensures oldLin != [] ==> NotWorseThan(g, todo - front, lin + t, oldLin)
    ensures optimal ==> NotWorseThanAny(g, todo - front, lin + t)
  {
    if oldLin != [] {
      if optimalStep {
        OptimalStep(g, todo, lin, front, t, oldLin);
      } else {
        ObjectChunked(oldChunks);
        NotBetterNotHigher(oldChunks.GetChunk(0).feerate, Sum(g.Rates(), all));
        IntersectedStep(g, todo, lin, oldLin, all, front, t);
      }
    }
    if optimal {
      forall l: seq<nat> | IsLinearization(g, l, g.used) ensures NotWorseThan(g, todo - front, lin + t, l) {
        assert NotWorseThan(g, todo, lin, l);
        OptimalStep(g, todo, lin, front, t, l);
      }
    }
  }

  lemma Finished(g: Graph, lin: seq<nat>, optimal: bool, oldLin: seq<nat>)
    requires Valid(g) && (oldLin == [] || IsLinearization(g, oldLin, g.used)) && OnTrack(g, {}, lin, oldLin, optimal)
    ensures IsLinearization(g, lin, g.used)
    ensures oldLin != [] ==> AtLeastAsGood(g, lin, oldLin)
    ensures optimal ==> forall l: seq<nat> :: IsLinearization(g, l, g.used) ==> AtLeastAsGood(g, lin, l)
  {
    assert g.used - {} == g.used;
    if oldLin != [] {
      FinishedOne(g, lin, oldLin);
    }
    if optimal {
      forall l: seq<nat> | IsLinearization(g, l, g.used) ensures AtLeastAsGood(g, lin, l) {
        assert NotWorseThan(g, {}, lin, l);
        FinishedOne(g, lin, l);
      }
    }
  }

  lemma FinishedOne(g: Graph, lin: seq<nat>, l: seq<nat>)
    requires Valid(g) && IsLinearization(g, lin, g.used) && IsLinearization(g, l, g.used) && NotWorseThan(g, {}, lin, l)
    ensures AtLeastAsGood(g, lin, l)
  {
    FilterProps(l, {});
    assert lin + [] == lin;
    SameSetGoodness(g, lin, l, g.used);
  }
}
