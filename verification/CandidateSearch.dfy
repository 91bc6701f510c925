/**
 The branch-and-bound search for a high-feerate topologically valid subset
 (SearchCandidateFinder, src/cluster_linearize.h:626-998).

 `Search` holds the local variables that the source's add_fn and split_fn lambdas capture.
 */
module CandidateSearch {
  import opened Numbers
  import opened FeeFracs
  import opened TxSets
  import opened DepGraphs
  import opened Linearizations
  import opened CandidateTheory
  import opened SearchCosts

  /** inc: included so far; und: undecided; potFeerate: bound on what can still be reached. */
  datatype WorkItem = WorkItem(inc: SetInfo, und: set<nat>, potFeerate: FeeFrac)

  ghost predicate Fits(item: WorkItem, opt: set<nat>) {
    Compatible(item.inc.transactions, item.und, opt)
  }

  /** opt still beats best. */
  ghost predicate Ahead(g: Graph, opt: set<nat>, best: FeeFrac) {
    Sum(g.Rates(), opt).Better(best)
  }

  ghost predicate PairOk(g: Graph, todo: set<nat>, inc: SetInfo, und: set<nat>) {
    && inc.Honest(g.Rates()) && ClosedIn(g, todo, inc.transactions)
    && und <= todo && inc.transactions !! und && ClosedIn(g, todo, inc.transactions + und)
  }

  ghost predicate Pair(s: set<nat>, x: nat, y: nat) {
    x in s && y in s && x != y
  }

  ghost predicate Plural(s: set<nat>) {
    exists x: nat, y: nat {:trigger Pair(s, x, y)} :: Pair(s, x, y)
  }

  ghost predicate ItemOk(g: Graph, todo: set<nat>, opt: set<nat>, best: FeeFrac, item: WorkItem) {
    && PairOk(g, todo, item.inc, item.und) && item.und != {}
    && (item.inc.transactions == {} ==> item.potFeerate == Empty)
    && (item.inc.transactions != {} ==>
        && Plural(item.und) && item.potFeerate.size > 0 && !item.inc.feerate.Better(best)
        && (Fits(item, opt) && Ahead(g, opt, best) ==> !Sum(g.Rates(), opt).Better(item.potFeerate)))
  }

  ghost predicate ItemsOk(g: Graph, todo: set<nat>, opt: set<nat>, best: FeeFrac, queue: seq<WorkItem>) {
    forall i :: 0 <= i < |queue| ==> ItemOk(g, todo, opt, best, queue[i])
  }

  /** Why the queue never outgrows its capacity: item i leaves room for its own descendants. */
  ghost predicate Roomy(queue: seq<WorkItem>, capacity: nat) {
    forall i :: 0 <= i < |queue| ==> i + |queue[i].und| <= capacity
  }

  ghost predicate Extends(q: seq<WorkItem>, q': seq<WorkItem>) {
    |q| <= |q'| && q'[..|q|] == q
  }

  lemma ExtendsSelf(q: seq<WorkItem>)
    ensures Extends(q, q)
  {
  }

  lemma ExtendsTrans(a: seq<WorkItem>, b: seq<WorkItem>, c: seq<WorkItem>)
    requires Extends(a, b) && Extends(b, c)
    ensures Extends(a, c)
  {
    assert c[..|a|] == c[..|b|][..|a|];
  }

  ghost predicate SomeFits(queue: seq<WorkItem>, opt: set<nat>, from: nat) {
    exists i :: from <= i < |queue| && Fits(queue[i], opt)
  }

  // ---------------------------------------------------------------- how much is left to search

  function ItemShare(seeded: bool, item: WorkItem): nat {
    Share(seeded, item.inc.transactions != {}, |item.und|)
  }

  /** Splits that the first n items of the queue can still give rise to. */
  function WorkTo(seeded: bool, queue: seq<WorkItem>, n: nat): nat
    requires n <= |queue|
  {
    if n == 0 then 0 else WorkTo(seeded, queue, n - 1) + ItemShare(seeded, queue[n - 1])
  }

  function Work(seeded: bool, queue: seq<WorkItem>): nat {
    WorkTo(seeded, queue, |queue|)
  }

  ghost predicate IsWork(seeded: bool, work: seq<WorkItem> -> nat) {
    forall q {:trigger Work(seeded, q)} :: work(q) == Work(seeded, q)
  }

  lemma {:induction false} WorkSame(seeded: bool, a: seq<WorkItem>, b: seq<WorkItem>, n: nat)
    requires n <= |a| && n <= |b| && a[..n] == b[..n]
    ensures WorkTo(seeded, a, n) == WorkTo(seeded, b, n)
  {
    if n > 0 {
      assert a[..n][..n - 1] == a[..n - 1] && b[..n][..n - 1] == b[..n - 1];
      assert a[n - 1] == a[..n][n - 1] == b[n - 1];
      WorkSame(seeded, a, b, n - 1);
    }
  }

  lemma WorkPushed(seeded: bool, work: seq<WorkItem> -> nat, q: seq<WorkItem>, item: WorkItem, und: set<nat>)
    requires IsWork(seeded, work) && item.und <= und
    ensures work(q + [item]) <= work(q) + Share(seeded, item.inc.transactions != {}, |und|)
  {
    assert work(q + [item]) == Work(seeded, q + [item]) && work(q) == Work(seeded, q);
    WorkSame(seeded, q + [item], q, |q|);
    SubsetCard(item.und, und);
    ShareMono(seeded, item.inc.transactions != {}, |item.und|, |und|);
  }

  lemma WorkWithoutBack(seeded: bool, work: seq<WorkItem> -> nat, q: seq<WorkItem>)
    requires IsWork(seeded, work) && q != []
    ensures work(q) == work(q[..|q| - 1]) + ItemShare(seeded, q[|q| - 1])
  {
    assert work(q) == Work(seeded, q) && work(q[..|q| - 1]) == Work(seeded, q[..|q| - 1]);
    WorkSame(seeded, q, q[..|q| - 1], |q| - 1);
  }

  lemma {:induction false} WorkShifted(seeded: bool, q: seq<WorkItem>, n: nat)
    requires 0 < n <= |q|
    ensures WorkTo(seeded, q, n) == ItemShare(seeded, q[0]) + WorkTo(seeded, q[1..], n - 1)
  {
    if n > 1 {
      WorkShifted(seeded, q, n - 1);
      assert q[n - 1] == q[1..][n - 2];
    }
  }

  lemma WorkWithoutFront(seeded: bool, work: seq<WorkItem> -> nat, q: seq<WorkItem>)
    requires IsWork(seeded, work) && q != []
    ensures work(q) == work(q[1..]) + ItemShare(seeded, q[0])
  {
    assert work(q) == Work(seeded, q) && work(q[1..]) == Work(seeded, q[1..]);
    WorkShifted(seeded, q, |q|);
  }

  lemma WorkSwapped(seeded: bool, work: seq<WorkItem> -> nat, q: seq<WorkItem>)
    requires IsWork(seeded, work) && |q| > 1
    ensures work(Swapped(q)) == work(q)
  {
    var s := Swapped(q);
    WorkWithoutFront(seeded, work, q);
    WorkWithoutFront(seeded, work, s);
    WorkWithoutFront(seeded, work, q[1..]);
    WorkWithoutFront(seeded, work, s[1..]);
    assert q[1..][1..] == s[1..][1..];
  }

  /** Before anything is included, one half of a split loses two transactions at least. */
  ghost predicate SplitsWell(seeded: bool, g: Graph, elem: WorkItem, split: nat) {
    seeded && elem.inc.transactions == {} ==>
      && |elem.und| > 1
      && (|elem.und - g.Desc(split)| + 2 <= |elem.und| || |elem.und - g.Anc(split)| + 2 <= |elem.und|)
  }

  lemma Two(s: set<nat>, x: nat, y: nat)
    requires Pair(s, x, y)
    ensures |s| > 1
  {
    SubsetCard({x, y}, s);
    assert |{x, y}| == 2;
  }

  lemma SmallerByTwo(und: set<nat>, gone: set<nat>, x: nat, y: nat)
    requires x in und * gone && y in und * gone && x != y
    ensures |und - gone| + 2 <= |und|
  {
    var lost := und * gone;
    Two(lost, x, y);
    assert (und - gone) + lost == und && (und - gone) !! lost;
  }

  lemma OtherAncestor(g: Graph, todo: set<nat>, und: set<nat>, first: nat) returns (y: nat)
    requires WellFormed(g) && todo <= g.used && ClosedIn(g, todo, und) && first in und && !Alone(g, todo, first)
    ensures y in und * g.Anc(first) && y != first
  {
    y :| y in g.Anc(first) && y in todo && y != first;
  }

  /** A choice at least as good as one that loses x and y one way and x the other way. */
  lemma AtLeastAsGoodASplit(g: Graph, und: set<nat>, first: nat, y: nat, split: nat)
    requires WellFormed(g) && und <= g.used && first in und && split in und && y in und * g.Anc(first) && y != first
    requires !SmallerCounts(Counts(g, und, first), Counts(g, und, split))
    ensures |und - g.Desc(split)| + 2 <= |und| || |und - g.Anc(split)| + 2 <= |und|
  {
    SmallerByTwo(und, g.Anc(first), first, y);
    SmallerWithout(und, g.Desc(first), first);
    SmallerWithout(und, g.Desc(split), split);
    SmallerWithout(und, g.Anc(split), split);
  }

  /**
   The best choice of what to split on is at least as good as the first undecided transaction,
   which beats best and so has another ancestor left.
   */
  lemma BestSplitsWell(seeded: bool, g: Graph, todo: set<nat>, best: FeeFrac, elem: WorkItem, first: nat, split: nat)
    requires DepGraphs.Valid(g) && todo <= g.used && PairOk(g, todo, elem.inc, elem.und)
    requires seeded ==> NoneAloneBeats(g, todo, best)
    requires first in elem.und && split in elem.und
    requires elem.inc.transactions == {} ==> At(g.Rates(), first).Better(best)
    requires !SmallerCounts(Counts(g, elem.und, first), Counts(g, elem.und, split))
    ensures SplitsWell(seeded, g, elem, split)
  {
    if seeded && elem.inc.transactions == {} {
      NothingAdded(elem.inc.transactions, elem.und);
      FirstSplitsWell(g, todo, best, elem.und, first, split);
    }
  }

  lemma NothingAdded(a: set<nat>, b: set<nat>)
    requires a == {}
    ensures a + b == b
  {
  }

  lemma FirstSplitsWell(g: Graph, todo: set<nat>, best: FeeFrac, und: set<nat>, first: nat, split: nat)
    requires WellFormed(g) && todo <= g.used && ClosedIn(g, todo, und) && NoneAloneBeats(g, todo, best)
    requires first in und && split in und && At(g.Rates(), first).Better(best)
    requires !SmallerCounts(Counts(g, und, first), Counts(g, und, split))
    ensures |und| > 1 && (|und - g.Desc(split)| + 2 <= |und| || |und - g.Anc(split)| + 2 <= |und|)
  {
    assert !Alone(g, todo, first);
    var y := OtherAncestor(g, todo, und, first);
    Two(und, first, y);
    AtLeastAsGoodASplit(g, und, first, y, split);
  }

  lemma PairSize(g: Graph, todo: set<nat>, inc: SetInfo, und: set<nat>)
    requires Valid(g) && todo <= g.used && PairOk(g, todo, inc, und)
    ensures inc.transactions != {} <==> inc.feerate.size > 0
    ensures inc.transactions == {} ==> inc.feerate == Empty
  {
    SumSize(g.Rates(), inc.transactions);
  }

  /** Improving best keeps every work item usable. */
  lemma ItemStays(g: Graph, todo: set<nat>, opt: set<nat>, best: FeeFrac, best': FeeFrac, item: WorkItem)
    requires Searchable(g, todo) && CandidateTheory.Best(g, todo, opt) && best.size > 0 && best'.size > 0
    requires !best.Better(best') && ItemOk(g, todo, opt, best, item)
    ensures ItemOk(g, todo, opt, best', item)
  {
    if item.inc.transactions != {} {
      PairSize(g, todo, item.inc, item.und);
      CandidateSize(g, todo, opt);
      AtLeastTrans(best', best, item.inc.feerate);
      if Ahead(g, opt, best') {
        BetterThanAtMost(Sum(g.Rates(), opt), best', best);
      }
    }
  }

  lemma ItemsStay(g: Graph, todo: set<nat>, opt: set<nat>, best: FeeFrac, best': FeeFrac, queue: seq<WorkItem>)
    requires Searchable(g, todo) && CandidateTheory.Best(g, todo, opt) && best.size > 0 && best'.size > 0
    requires !best.Better(best') && ItemsOk(g, todo, opt, best, queue)
    ensures ItemsOk(g, todo, opt, best', queue)
  {
    forall i | 0 <= i < |queue| ensures ItemOk(g, todo, opt, best', queue[i]) {
      ItemStays(g, todo, opt, best, best', queue[i]);
    }
  }

  /** The largest member of a nonempty set (SetType::Last). */
  method Last(s: set<nat>, n: nat) returns (l: nat)
    requires s != {} && forall x <- s :: x < n
    ensures l in s && forall x: nat :: x in s ==> x <= l
  {
    assert n > 0 by { var x :| x in s; }
    l := n - 1;
    while l !in s
      invariant forall x <- s :: x <= l
      decreases l
    {
      assert l > 0 by { var x :| x in s; }
      l := l - 1;
    }
  }

  class Search {
    const g: Graph
    const todo: set<nat>
    /** Allocated size of the work queue. */
    const capacity: nat
    /** The best set that the proof follows through the search. */
    ghost const opt: set<nat>
    /** Does no single transaction beat the set that the search starts from? */
    ghost const seeded: bool
    /** Splits that a queue can still give rise to. */
    ghost const work: seq<WorkItem> -> nat

    var best: SetInfo
    /** The transactions of todo with a feerate above best's. */
    var imp: set<nat>
    var queue: seq<WorkItem>

    ghost predicate Context() {
      Searchable(g, todo) && CandidateTheory.Best(g, todo, opt) && IsWork(seeded, work)
    }

    ghost predicate BestOk()
      reads this`best
    {
      && best.Honest(g.Rates()) && Candidate(g, todo, best.transactions) && best.feerate.size > 0
      && (seeded ==> NoneAloneBeats(g, todo, best.feerate))
    }

    ghost predicate Valid()
      reads this`best, this`imp, this`queue
    {
      && Context() && BestOk() && ImpExact(g, todo, best.feerate, imp)
      && ItemsOk(g, todo, opt, best.feerate, queue) && Roomy(queue, capacity)
    }

    constructor (g: Graph, todo: set<nat>, ghost opt: set<nat>, ghost seeded: bool, best: SetInfo, queue: seq<WorkItem>, capacity: nat)
      requires Searchable(g, todo) && CandidateTheory.Best(g, todo, opt)
      requires best.Honest(g.Rates()) && Candidate(g, todo, best.transactions) && best.feerate.size > 0
      requires seeded ==> NoneAloneBeats(g, todo, best.feerate)
      requires ItemsOk(g, todo, opt, best.feerate, queue) && Roomy(queue, capacity)
      ensures Valid() && this.g == g && this.todo == todo && this.opt == opt && this.seeded == seeded && this.capacity == capacity
      ensures this.best == best && this.queue == queue
    {
      this.g, this.todo, this.opt, this.seeded, this.capacity := g, todo, opt, seeded, capacity;
      this.best, this.queue, imp := best, queue, todo;
      work := q => Work(seeded, q);
      new;
      TrimImp();
    }

    /** Drop from imp what no longer lies above best. */
    method TrimImp()
      requires Context() && BestOk() && imp <= todo
      requires forall t: nat :: t in todo - imp ==> !At(g.Rates(), t).Higher(best.feerate)
      modifies this`imp
      ensures ImpExact(g, todo, best.feerate, imp)
    {
      while imp != {}
        invariant imp <= todo
        invariant forall t: nat :: t in todo - imp ==> !At(g.Rates(), t).Higher(best.feerate)
        decreases |imp|
      {
        var check := Last(imp, |g.entries|);
        if At(g.Rates(), check).Higher(best.feerate) {
          ImpDone(g, todo, best.feerate, imp, check);
          return;
        }
        imp := imp - {check};
      }
    }

    /** The set whose feerate bounds what a work item can reach. */
    method Potential(inc: SetInfo, und: set<nat>) returns (pot: SetInfo)
      requires Context() && imp <= todo && PairOk(g, todo, inc, und) && inc.transactions != {}
      ensures pot.Honest(g.Rates()) && Greedy(g, inc.transactions, und, imp, pot.transactions)
    {
      pot := inc;
      ghost var r := g.Rates();
      assert Below(imp * und, 0) == {};
      for pos := 0 to |g.entries|
        invariant pot.Honest(r) && pot.transactions == inc.transactions + Below(imp * und, pos)
        invariant forall t: nat :: t in pot.transactions - inc.transactions ==> t < pos && At(r, t).Higher(pot.feerate)
      {
        BelowStep(imp * und, pos);
        if pos in imp * und {
          if !At(g.Rates(), pos).Higher(pot.feerate) {
            GreedyStops(g, todo, inc.transactions, und, imp, pot.transactions, pos);
            return;
          }
          GreedyStep(g, todo, inc.transactions, pot.transactions, pos);
          pot := SetInfo(pot.transactions + {pos}, pot.feerate.Add(At(g.Rates(), pos)));
        }
      }
      BelowAll(imp * und, |g.entries|);
    }

    /** Include every transaction whose remaining ancestors all lie in pot. */
    method JumpToPotential(inc: set<nat>, und: set<nat>, pot: set<nat>) returns (inc': set<nat>)
      requires Context() && BestOk() && ImpExact(g, todo, best.feerate, imp)
      requires inc != {} && inc + und <= todo && ClosedIn(g, todo, inc) && Greedy(g, inc, und, imp, pot)
      ensures inc <= inc' <= pot && ClosedIn(g, todo, inc')
      ensures Compatible(inc, und, opt) && Ahead(g, opt, best.feerate) ==> inc' <= opt
      ensures AllJumped(g, todo, inc, pot, inc', |g.entries|)
    {
      inc' := inc;
      for pos := 0 to |g.entries|
        invariant AllJumped(g, todo, inc, pot, inc', pos)
        invariant inc <= inc' <= pot && ClosedIn(g, todo, inc')
        invariant Compatible(inc, und, opt) && Ahead(g, opt, best.feerate) ==> inc' <= opt
      {
        if pos in pot - inc {
          var ancTodo := g.Anc(pos) * todo;
          if ancTodo <= pot {
            AncestorsClosed(g, todo, pos);
            if Compatible(inc, und, opt) && Ahead(g, opt, best.feerate) {
              JumpAhead(g, todo, best.feerate, imp, inc, und, pot, opt, ancTodo);
            }
            ClosedUnion(g, todo, inc', ancTodo);
            inc' := inc' + ancTodo;
          }
        }
      }
    }

    /** If inc beats best, remember it. */
    method Improve(inc: SetInfo)
      requires Valid() && inc.Honest(g.Rates()) && Candidate(g, todo, inc.transactions) && inc.feerate.size > 0
      modifies this`best, this`imp
      ensures Valid() && !old(best).feerate.Better(best.feerate) && !inc.feerate.Better(best.feerate)
    {
      if inc.feerate.Better(best.feerate) {
        ghost var before := best.feerate;
        BetterAsym(inc.feerate, before);
        best := inc;
        if seeded {
          NoneAloneStays(g, todo, before, best.feerate);
        }
        forall t: nat | t in todo - imp ensures !At(g.Rates(), t).Higher(best.feerate) {
          NotHigherStays(g, t, before, best.feerate);
        }
        TrimImp();
        ItemsStay(g, todo, opt, before, best.feerate, queue);
      } else {
        NotBetterSelf(best.feerate);
      }
    }

    /**
     add_fn: queue (inc, und) unless nothing better can come of it, after including what must be
     part of any best set compatible with it.
     */
    method Add(inc: SetInfo, und: set<nat>)
      requires Valid() && PairOk(g, todo, inc, und) && |queue| + |und| <= capacity
      modifies this`best, this`imp, this`queue
      ensures Valid() && !old(best).feerate.Better(best.feerate)
      ensures Extends(old(queue), queue) && |queue| <= |old(queue)| + 1
      ensures Compatible(inc.transactions, und, opt) && Ahead(g, opt, best.feerate) ==> SomeFits(queue, opt, |old(queue)|)
      ensures work(queue) <= work(old(queue)) + Share(seeded, inc.transactions != {}, |und|)
    {
      PairSize(g, todo, inc, und);
      if !inc.feerate.IsEmpty() {
        AddIncluding(inc, und);
      } else {
        NotBetterSelf(best.feerate);
        if und == {} {
          EmptyPairFitsNothing(g, todo, opt, inc.transactions);
          return;
        }
        Push(WorkItem(inc, und, Empty), und);
      }
    }

    /** The branch of add_fn for a nonempty inc. */
    method AddIncluding(inc: SetInfo, und: set<nat>)
      requires Valid() && PairOk(g, todo, inc, und) && inc.transactions != {} && |queue| + |und| <= capacity
      modifies this`best, this`imp, this`queue
      ensures Valid() && !old(best).feerate.Better(best.feerate)
      ensures Extends(old(queue), queue) && |queue| <= |old(queue)| + 1
      ensures Compatible(inc.transactions, und, opt) && Ahead(g, opt, best.feerate) ==> SomeFits(queue, opt, |old(queue)|)
      ensures work(queue) <= work(old(queue)) + Share(seeded, inc.transactions != {}, |und|)
    {
      var item := Jump(inc, und);
      PushUnlessDone(item, und);
    }

    /** Queue the item if something can still be reached beyond what it includes. */
    method PushUnlessDone(item: WorkItem, ghost und: set<nat>)
      requires Valid() && item.und <= und && |queue| + |und| <= capacity
      requires item.potFeerate.size != item.inc.feerate.size ==> ItemOk(g, todo, opt, best.feerate, item)
      modifies this`queue
      ensures Valid() && Extends(old(queue), queue) && |queue| <= |old(queue)| + 1
      ensures Fits(item, opt) && item.potFeerate.size != item.inc.feerate.size ==> SomeFits(queue, opt, |old(queue)|)
      ensures work(queue) <= work(old(queue)) + Share(seeded, item.inc.transactions != {}, |und|)
    {
      if item.potFeerate.size != item.inc.feerate.size {
        Push(item, und);
      } else {
        ExtendsSelf(queue);
      }
    }

    /** Build the work item for (inc, und), and remember its included set if that beats best. */
    method Jump(inc: SetInfo, und: set<nat>) returns (item: WorkItem)
      requires Valid() && PairOk(g, todo, inc, und) && inc.transactions != {}
      modifies this`best, this`imp
      ensures Valid() && !old(best).feerate.Better(best.feerate) && item.und <= und && item.inc.transactions != {}
      ensures item.potFeerate.size != item.inc.feerate.size ==> ItemOk(g, todo, opt, best.feerate, item)
      ensures Compatible(inc.transactions, und, opt) && Ahead(g, opt, best.feerate) ==>
        Fits(item, opt) && item.potFeerate.size != item.inc.feerate.size
    {
      var pot := Potential(inc, und);
      var txs := JumpToPotential(inc.transactions, und, pot.transactions);
      var inc' := SetInfo(txs, inc.feerate.Add(Sum(g.Rates(), txs - inc.transactions)));
      JumpedPair(g, todo, inc, und, pot, txs);
      JumpLeavesTwo(g, todo, inc.transactions, und, pot.transactions, txs);
      item := WorkItem(inc', und - txs, pot.feerate);
      Improve(inc');
      AddedItem(g, todo, opt, old(best).feerate, best.feerate, old(imp), inc, und, pot, item);
    }

    /** queue.emplace_back: there is always room, so the queue is never reallocated. */
    method Push(item: WorkItem, ghost und: set<nat>)
      requires Valid() && ItemOk(g, todo, opt, best.feerate, item) && item.und <= und && |queue| + |und| <= capacity
      modifies this`queue
      ensures Valid() && Extends(old(queue), queue) && |queue| == |old(queue)| + 1
      ensures |old(queue)| < capacity
      ensures work(queue) <= work(old(queue)) + Share(seeded, item.inc.transactions != {}, |und|)
      ensures Fits(item, opt) ==> SomeFits(queue, opt, |old(queue)|)
    {
      ghost var q := Pushed(g, todo, opt, best.feerate, seeded, work, queue, item, und, capacity);
      queue := queue + [item];
    }

    /** Among the undecided ancestors of first, pick the one that shrinks the search space most. */
    method ChooseSplit(und: set<nat>, first: nat) returns (split: nat)
      requires first in und && (forall t: nat :: t in und ==> t < |g.entries|) && first in g.Anc(first)
      ensures split in und * g.Anc(first)
      ensures forall t: nat :: t in und * g.Anc(first) ==> !SmallerCounts(Counts(g, und, t), Counts(g, und, split))
    {
      var select := und * g.Anc(first);
      split := 0;
      var found := false;
      assert first in select;
      for t := 0 to |g.entries|
        invariant found ==> split in select
        invariant !found ==> forall u: nat :: u in select ==> u >= t
        invariant found ==> forall u: nat :: u in select && u < t ==> !SmallerCounts(Counts(g, und, u), Counts(g, und, split))
      {
        if t in select {
          if !found || SmallerCounts(Counts(g, und, t), Counts(g, und, split)) {
            split := t;
            found := true;
          }
        }
      }
    }

    lemma Indices(und: set<nat>, first: nat)
      requires Context() && und <= todo && first in und
      ensures forall t: nat :: t in und ==> t < |g.entries|
      ensures first in g.Anc(first)
    {
    }

    /** Can the work item be dropped without exploring it? */
    method Prunable(elem: WorkItem, first: nat) returns (prune: bool)
      requires Valid() && ItemOk(g, todo, opt, best.feerate, elem) && IsFirst(elem.und, first)
      ensures prune && Fits(elem, opt) ==> !Ahead(g, opt, best.feerate)
      ensures !prune && elem.inc.transactions == {} ==> At(g.Rates(), first).Better(best.feerate)
    {
      PairSize(g, todo, elem.inc, elem.und);
      if !elem.inc.feerate.IsEmpty() {
        if elem.und * imp == {} {
          PrunedIncluded(g, todo, opt, best.feerate, imp, elem);
          return true;
        }
        if elem.potFeerate.AtMost(best.feerate) {
          PrunedPotential(g, todo, opt, best.feerate, elem);
          return true;
        }
      } else {
        if At(g.Rates(), first).AtMost(best.feerate) {
          PrunedEmpty(g, todo, opt, best.feerate, elem, first);
          return true;
        }
      }
      return false;
    }

    /** split_fn: replace a work item by one excluding and one including some transaction. */
    method Split(elem: WorkItem) returns (explored: bool)
      requires Valid() && ItemOk(g, todo, opt, best.feerate, elem)
      requires |queue| + |elem.und| <= capacity
      modifies this
      ensures Valid() && !old(best).feerate.Better(best.feerate) && Extends(old(queue), queue)
      ensures !explored ==> queue == old(queue)
      ensures explored ==> work(queue) + 1 <= work(old(queue)) + ItemShare(seeded, elem)
      ensures Fits(elem, opt) && Ahead(g, opt, best.feerate) ==> SomeFits(queue, opt, |old(queue)|)
    {
      var split, prune := Prune(elem);
      if prune {
        NotBetterSelf(best.feerate);
        ExtendsSelf(queue);
        return false;
      }
      SplitInTwo(elem, split);
      return true;
    }

    /** The checks at the start of split_fn, and its choice of what to split on. */
    method Prune(elem: WorkItem) returns (split: nat, prune: bool)
      requires Valid() && ItemOk(g, todo, opt, best.feerate, elem)
      ensures prune && Fits(elem, opt) ==> !Ahead(g, opt, best.feerate)
      ensures !prune ==> split in elem.und && SplitsWell(seeded, g, elem, split)
    {
      var first := First(elem.und, |g.entries|);
      prune := Prunable(elem, first);
      split := 0;
      if !prune {
        Indices(elem.und, first);
        split := ChooseSplit(elem.und, first);
        BestSplitsWell(seeded, g, todo, best.feerate, elem, first, split);
      }
    }

    method SplitInTwo(elem: WorkItem, split: nat)
      requires Valid() && ItemOk(g, todo, opt, best.feerate, elem) && split in elem.und
      requires |queue| + |elem.und| <= capacity && SplitsWell(seeded, g, elem, split)
      modifies this`best, this`imp, this`queue
      ensures Valid() && !old(best).feerate.Better(best.feerate) && Extends(old(queue), queue)
      ensures work(queue) + 1 <= work(old(queue)) + ItemShare(seeded, elem)
      ensures Fits(elem, opt) && Ahead(g, opt, best.feerate) ==> SomeFits(queue, opt, |old(queue)|)
    {
      var excluded, included := elem.und - g.Desc(split), elem.und - g.Anc(split) * todo;
      ExcludedPair(g, todo, elem.inc, elem.und, split);
      IncludedPair(g, todo, elem.inc, elem.und, split);
      HalvesShare(seeded, g, todo, elem, split, excluded, included);
      Add(elem.inc, excluded);
      ghost var q1, b1 := queue, best.feerate;
      Add(elem.inc.AddSet(g.Rates(), g.Anc(split) * todo), included);
      AtLeastTrans(best.feerate, b1, old(best).feerate);
      ExtendsTrans(old(queue), q1, queue);
      SplitCovers(g, todo, opt, elem, split, b1, best.feerate, old(queue), q1, queue);
    }

    /** The state is valid and does not lose opt. */
    ghost predicate Tracking()
      reads this`best, this`imp, this`queue
    {
      Valid() && Followed(g, opt, best.feerate, queue)
    }

    /** The work loop: breadth first, but depth first while the queue might overflow. */
    method Run(maxIterations: nat) returns (iterationsLeft: nat)
      requires Tracking() && |todo| < capacity
      modifies this
      ensures Valid() && !old(best).feerate.Better(best.feerate)
      ensures iterationsLeft <= maxIterations <= iterationsLeft + work(old(queue))
      ensures iterationsLeft > 0 ==> !Ahead(g, opt, best.feerate)
    {
      NotBetterSelf(best.feerate);
      ghost var b0 := best.feerate;
      iterationsLeft := maxIterations;
      while queue != []
        invariant Tracking() && !b0.Better(best.feerate) && b0.size > 0
        invariant iterationsLeft <= maxIterations && maxIterations + work(queue) <= iterationsLeft + work(old(queue))
        decreases iterationsLeft, |queue|
      {
        ghost var b1 := best.feerate;
        MaybeSwap();
        iterationsLeft := ShrinkQueue(iterationsLeft);
        AtLeastTrans(best.feerate, b1, b0);
        if iterationsLeft == 0 {
          break;
        }
        ghost var b2 := best.feerate;
        var explored := ProcessFront();
        AtLeastTrans(best.feerate, b2, b0);
        if explored {
          iterationsLeft := iterationsLeft - 1;
        }
      }
    }

    /** Randomly swap the first two items. */
    method MaybeSwap()
      requires Tracking() && |todo| < capacity
      modifies this`queue
      ensures Tracking() && |queue| == |old(queue)| && work(queue) == work(old(queue))
    {
      var randbool: bool := *;
      if |queue| > 1 && randbool {
        queue := SwapFirstTwo(g, todo, opt, best.feerate, seeded, work, queue, capacity);
      }
    }

    /** Depth-first processing until the first item can be explored within the capacity. */
    method ShrinkQueue(iterations: nat) returns (iterationsLeft: nat)
      requires Tracking() && |todo| < capacity && queue != []
      modifies this
      ensures Tracking() && !old(best).feerate.Better(best.feerate) && queue != []
      ensures iterationsLeft < iterations || (iterationsLeft == iterations && |queue| <= |old(queue)|)
      ensures iterationsLeft == 0 || |queue| - 1 + |queue[0].und| <= capacity
      ensures iterations + work(queue) <= iterationsLeft + work(old(queue))
    {
      iterationsLeft := iterations;
      ghost var b0 := best.feerate;
      NotBetterSelf(b0);
      while |queue| - 1 + |queue[0].und| > capacity
        invariant Tracking() && !b0.Better(best.feerate) && b0.size > 0 && queue != []
        invariant iterationsLeft < iterations || (iterationsLeft == iterations && |queue| <= |old(queue)|)
        invariant iterations + work(queue) <= iterationsLeft + work(old(queue))
        decreases iterationsLeft, |queue|
      {
        if iterationsLeft == 0 {
          break;
        }
        assert ItemOk(g, todo, opt, best.feerate, queue[0]);
        SubsetCard(queue[0].und, todo);
        ghost var b1 := best.feerate;
        var explored := ProcessBack();
        AtLeastTrans(best.feerate, b1, b0);
        if explored {
          iterationsLeft := iterationsLeft - 1;
        }
      }
    }

    method ProcessBack() returns (explored: bool)
      requires Tracking() && |queue| > 1
      modifies this
      ensures Tracking() && !old(best).feerate.Better(best.feerate) && queue != []
      ensures !explored ==> |queue| < |old(queue)|
      ensures work(queue) + (if explored then 1 else 0) <= work(old(queue))
    {
      ghost var q := queue;
      var elem, rest := queue[|queue| - 1], queue[..|queue| - 1];
      WithoutBack(g, todo, opt, best.feerate, seeded, work, queue, capacity, rest);
      queue := rest;
      explored := Split(elem);
      BackFollowed(g, todo, opt, old(best).feerate, best.feerate, q, rest, elem, queue);
    }

    method ProcessFront() returns (explored: bool)
      requires Tracking() && queue != [] && |queue| - 1 + |queue[0].und| <= capacity
      modifies this
      ensures Tracking() && !old(best).feerate.Better(best.feerate)
      ensures !explored ==> |queue| < |old(queue)|
      ensures work(queue) + (if explored then 1 else 0) <= work(old(queue))
    {
      var elem := queue[0];
      WithoutFront(g, todo, opt, best.feerate, seeded, work, queue, capacity);
      queue := queue[1..];
      explored := Split(elem);
      FrontFollowed(g, todo, opt, old(best).feerate, best.feerate, old(queue), queue);
    }
  }

  lemma WithoutBack(g: Graph, todo: set<nat>, opt: set<nat>, best: FeeFrac, seeded: bool, work: seq<WorkItem> -> nat, q: seq<WorkItem>, capacity: nat, rest: seq<WorkItem>)
    requires q != [] && ItemsOk(g, todo, opt, best, q) && Roomy(q, capacity) && IsWork(seeded, work) && rest == q[..|q| - 1]
    ensures
      && ItemsOk(g, todo, opt, best, rest) && Roomy(rest, capacity) && work(q) == work(rest) + ItemShare(seeded, q[|q| - 1])
      && ItemOk(g, todo, opt, best, q[|q| - 1]) && |rest| == |q| - 1 && |rest| + |q[|q| - 1].und| <= capacity
  {
    WorkWithoutBack(seeded, work, q);
  }

  lemma WithoutFront(g: Graph, todo: set<nat>, opt: set<nat>, best: FeeFrac, seeded: bool, work: seq<WorkItem> -> nat, q: seq<WorkItem>, capacity: nat)
    requires q != [] && ItemsOk(g, todo, opt, best, q) && Roomy(q, capacity) && IsWork(seeded, work)
    ensures var rest := q[1..];
      && ItemsOk(g, todo, opt, best, rest) && Roomy(rest, capacity) && work(q) == work(rest) + ItemShare(seeded, q[0])
      && ItemOk(g, todo, opt, best, q[0]) && |rest| == |q| - 1
  {
    WorkWithoutFront(seeded, work, q);
    forall i | 0 <= i < |q[1..]| ensures i + |q[1..][i].und| <= capacity {
      assert q[1..][i] == q[i + 1];
    }
  }

  lemma BackReplaced(q: seq<WorkItem>, q': seq<WorkItem>, opt: set<nat>)
    requires q != [] && Extends(q[..|q| - 1], q') && SomeFits(q, opt, 0)
    requires Fits(q[|q| - 1], opt) ==> SomeFits(q', opt, |q| - 1)
    ensures SomeFits(q', opt, 0)
  {
    var i :| 0 <= i < |q| && Fits(q[i], opt);
    if i < |q| - 1 {
      assert q'[..|q| - 1][i] == q[i];
    }
  }

  lemma BackFollowed(g: Graph, todo: set<nat>, opt: set<nat>, b0: FeeFrac, b1: FeeFrac, q: seq<WorkItem>, rest: seq<WorkItem>, elem: WorkItem, q': seq<WorkItem>)
    requires Searchable(g, todo) && CandidateTheory.Best(g, todo, opt) && b0.size > 0 && b1.size > 0 && !b0.Better(b1)
    requires q != [] && rest == q[..|q| - 1] && elem == q[|q| - 1] && Extends(rest, q') && Followed(g, opt, b0, q)
    requires Fits(elem, opt) && Ahead(g, opt, b1) ==> SomeFits(q', opt, |rest|)
    ensures Followed(g, opt, b1, q')
  {
    if Ahead(g, opt, b1) {
      StillAhead(g, todo, opt, b0, b1);
      BackReplaced(q, q', opt);
    }
  }

  lemma FrontFollowed(g: Graph, todo: set<nat>, opt: set<nat>, b0: FeeFrac, b1: FeeFrac, q: seq<WorkItem>, q': seq<WorkItem>)
    requires Searchable(g, todo) && CandidateTheory.Best(g, todo, opt) && b0.size > 0 && b1.size > 0 && !b0.Better(b1)
    requires q != [] && Extends(q[1..], q') && Followed(g, opt, b0, q)
    requires Fits(q[0], opt) && Ahead(g, opt, b1) ==> SomeFits(q', opt, |q| - 1)
    ensures Followed(g, opt, b1, q')
  {
    if Ahead(g, opt, b1) {
      StillAhead(g, todo, opt, b0, b1);
      FrontReplaced(q, q', opt);
    }
  }

  lemma FrontReplaced(q: seq<WorkItem>, q': seq<WorkItem>, opt: set<nat>)
    requires q != [] && Extends(q[1..], q') && SomeFits(q, opt, 0)
    requires Fits(q[0], opt) ==> SomeFits(q', opt, |q| - 1)
    ensures SomeFits(q', opt, 0)
  {
    var i :| 0 <= i < |q| && Fits(q[i], opt);
    if i > 0 {
      assert q'[..|q| - 1][i - 1] == q[i];
    }
  }

  // ---------------------------------------------------------------- starting the search

  /** One work item per connected component covered so far, nothing included. */
  ghost predicate StartItems(g: Graph, todo: set<nat>, queue: seq<WorkItem>) {
    forall i :: 0 <= i < |queue| ==>
      queue[i].inc == NoSet && queue[i].potFeerate == Empty && queue[i].und != {} && ClosedIn(g, todo, queue[i].und)
  }

  lemma ComponentClosed(g: Graph, todo: set<nat>, cover: set<nat>, part: set<nat>)
    requires part <= cover <= todo && Severed(g, todo - cover, cover) && Severed(g, part, cover - part)
    ensures ClosedIn(g, todo, part) && Severed(g, todo - (cover - part), cover - part)
  {
    forall x: nat, y: nat | x in part && y in g.Anc(x) && y in todo ensures y in part {
      assert Related(g, x, y) && Related(g, y, x);
      assert y in todo - cover || y in part || y in cover - part;
    }
    forall x: nat, y: nat | x in todo - (cover - part) && y in cover - part ensures !Related(g, x, y) {
      assert x in todo - cover || x in part;
    }
  }

  lemma StartItemsOk(g: Graph, todo: set<nat>, opt: set<nat>, best: FeeFrac, queue: seq<WorkItem>, capacity: nat)
    requires Searchable(g, todo) && StartItems(g, todo, queue) && |queue| <= |todo| && 2 * |todo| <= capacity
    ensures ItemsOk(g, todo, opt, best, queue) && Roomy(queue, capacity)
  {
    SumEmpty(g.Rates());
    forall i | 0 <= i < |queue| ensures ItemOk(g, todo, opt, best, queue[i]) && i + |queue[i].und| <= capacity {
      assert NoSet.transactions + queue[i].und == queue[i].und;
      SubsetCard(queue[i].und, todo);
    }
  }

  /** Split todo into connected components, and make sure there is a best set to start from. */
  method Start(g: Graph, todo: set<nat>, best0: SetInfo, ghost opt: set<nat>) returns (queue: seq<WorkItem>, best: SetInfo)
    requires Searchable(g, todo) && todo != {} && CandidateTheory.Best(g, todo, opt)
    requires best0.feerate.IsEmpty() || (best0.Honest(g.Rates()) && Candidate(g, todo, best0.transactions) && best0.feerate.size > 0)
    ensures StartItems(g, todo, queue) && |queue| <= |todo| && SomeFits(queue, opt, 0)
    ensures SharesFit(queue, |todo|)
    ensures best.Honest(g.Rates()) && Candidate(g, todo, best.transactions) && best.feerate.size > 0
    ensures !best0.feerate.IsEmpty() ==> best == best0
  {
    queue := [];
    best := best0;
    var toCover := todo;
    StartEmpty(todo);
    while toCover != {}
      invariant toCover <= todo && Severed(g, todo - toCover, toCover)
      invariant StartItems(g, todo, queue) && |queue| + |toCover| <= |todo|
      invariant opt <= toCover || SomeFits(queue, opt, 0)
      invariant SharesFit(queue, |todo - toCover|)
      invariant toCover != todo ==> !best.feerate.IsEmpty()
      invariant if best.feerate.IsEmpty() then best == best0 else best.Honest(g.Rates()) && Candidate(g, todo, best.transactions) && best.feerate.size > 0
      invariant !best0.feerate.IsEmpty() ==> best == best0
      decreases |toCover|
    {
      var component := FindConnectedComponent(g, toCover);
      ComponentClosed(g, todo, toCover, component);
      if opt <= toCover {
        BestNotSplit(g, todo, opt, toCover, component);
      }
      Shrinks(toCover - component, toCover);
      StartStep(g, todo, opt, queue, component);
      StartWork(queue, todo, toCover, component);
      if best.feerate.IsEmpty() {
        best := SetInfo(component, Sum(g.Rates(), component));
        CandidateSize(g, todo, component);
      }
      queue := queue + [WorkItem(NoSet, component, Empty)];
      toCover := toCover - component;
    }
    MinusNothing(todo, toCover);
  }

  lemma StartEmpty(todo: set<nat>)
    ensures SharesFit([], |todo - todo|)
  {
    assert todo - todo == {};
  }

  lemma MinusNothing(a: set<nat>, b: set<nat>)
    requires b == {}
    ensures a - b == a
  {
  }

  /** The queue leads to no more splits than one item with n undecided transactions would. */
  ghost predicate SharesFit(queue: seq<WorkItem>, n: nat) {
    forall seeded :: Work(seeded, queue) <= Share(seeded, false, n)
  }

  /** The shares of the components so far fit in one share for all of them together. */
  lemma StartWork(queue: seq<WorkItem>, todo: set<nat>, toCover: set<nat>, component: set<nat>)
    requires component <= toCover <= todo && component != {}
    requires SharesFit(queue, |todo - toCover|)
    ensures SharesFit(queue + [WorkItem(NoSet, component, Empty)], |todo - (toCover - component)|)
  {
    var item := WorkItem(NoSet, component, Empty);
    assert todo - (toCover - component) == (todo - toCover) + component;
    forall seeded ensures Work(seeded, queue + [item]) <= Share(seeded, false, |todo - (toCover - component)|) {
      WorkPushed(seeded, q => Work(seeded, q), queue, item, component);
      PartsShare(seeded, |todo - toCover|, |component|);
    }
  }

  lemma StartStep(g: Graph, todo: set<nat>, opt: set<nat>, queue: seq<WorkItem>, component: set<nat>)
    requires StartItems(g, todo, queue) && component != {} && ClosedIn(g, todo, component)
    ensures var q := queue + [WorkItem(NoSet, component, Empty)];
      StartItems(g, todo, q) && (SomeFits(queue, opt, 0) || opt <= component ==> SomeFits(q, opt, 0))
  {
    var q := queue + [WorkItem(NoSet, component, Empty)];
    if SomeFits(queue, opt, 0) {
      var i :| 0 <= i < |queue| && Fits(queue[i], opt);
      assert q[i] == queue[i];
    } else if opt <= component {
      assert Fits(q[|queue|], opt);
    }
  }

  /**
   The search on a graph sorted by feerate: never worse than the set it was given, and, when it
   stops before its iteration limit, no topologically valid subset is better. It takes at most
   2^(n-1) steps for n transactions, and 2^n/3 if no single transaction beats the set it was given.
   */
  method SearchSorted(g: Graph, todo: set<nat>, maxIterations: nat, best0: SetInfo) returns (best: SetInfo, iterations: nat)
    requires Searchable(g, todo) && todo != {}
    requires best0.feerate.IsEmpty() || (best0.Honest(g.Rates()) && Candidate(g, todo, best0.transactions) && best0.feerate.size > 0)
    ensures best.Honest(g.Rates()) && Candidate(g, todo, best.transactions) && best.feerate.size > 0
    ensures !best0.feerate.IsEmpty() ==> !best0.feerate.Better(best.feerate)
    ensures iterations <= maxIterations
    ensures iterations < maxIterations ==> CandidateTheory.Best(g, todo, best.transactions)
    ensures 2 * iterations <= Pow2(|todo|)
    ensures !best0.feerate.IsEmpty() && NoneAloneBeats(g, todo, best0.feerate) ==> 3 * iterations <= Pow2(|todo|)
  {
    ghost var opt := BestExists(g, todo);
    var queue, start := Start(g, todo, best0, opt);
    var capacity := if 2 * |todo| < 256 then 256 else 2 * |todo|;
    StartItemsOk(g, todo, opt, start.feerate, queue, capacity);
    ghost var seeded := NoneAloneBeats(g, todo, start.feerate);
    var search := new Search(g, todo, opt, seeded, start, queue, capacity);
    SubsetCard({}, todo);
    SeededShare(|todo|);
    var iterationsLeft := search.Run(maxIterations);
    best := search.best;
    iterations := maxIterations - iterationsLeft;
    if iterations < maxIterations {
      NoneBetter(g, todo, opt, best);
    }
  }

  lemma SeededShare(n: nat)
    requires n > 0
    ensures Share(true, false, n) <= Share(false, false, n) && 2 * Share(false, false, n) == Pow2(n)
  {
  }

  lemma NoneBetter(g: Graph, todo: set<nat>, opt: set<nat>, best: SetInfo)
    requires Searchable(g, todo) && CandidateTheory.Best(g, todo, opt)
    requires best.Honest(g.Rates()) && Candidate(g, todo, best.transactions) && !Ahead(g, opt, best.feerate)
    ensures CandidateTheory.Best(g, todo, best.transactions)
  {
    CandidateSize(g, todo, opt);
    CandidateSize(g, todo, best.transactions);
    forall s: set<nat> | Candidate(g, todo, s) ensures !Sum(g.Rates(), s).Better(best.feerate) {
      CandidateSize(g, todo, s);
      AtLeastTrans(best.feerate, Sum(g.Rates(), opt), Sum(g.Rates(), s));
    }
  }

  lemma StillAhead(g: Graph, todo: set<nat>, opt: set<nat>, b0: FeeFrac, b1: FeeFrac)
    requires Searchable(g, todo) && CandidateTheory.Best(g, todo, opt) && b0.size > 0 && b1.size > 0
    requires !b0.Better(b1) && Ahead(g, opt, b1)
    ensures Ahead(g, opt, b0)
  {
    CandidateSize(g, todo, opt);
    BetterThanAtMost(Sum(g.Rates(), opt), b1, b0);
  }

  function Swapped(q: seq<WorkItem>): seq<WorkItem>
    requires |q| > 1
  {
    [q[1], q[0]] + q[2..]
  }

  /** As long as opt is ahead, some work item leads to it. */
  ghost predicate Followed(g: Graph, opt: set<nat>, best: FeeFrac, queue: seq<WorkItem>) {
    Ahead(g, opt, best) ==> SomeFits(queue, opt, 0)
  }

  method SwapFirstTwo(g: Graph, todo: set<nat>, ghost opt: set<nat>, best: FeeFrac, ghost seeded: bool, ghost work: seq<WorkItem> -> nat, queue: seq<WorkItem>, capacity: nat)
    returns (q: seq<WorkItem>)
    requires IsWork(seeded, work)
    requires |queue| > 1 && ItemsOk(g, todo, opt, best, queue) && Roomy(queue, capacity) && |todo| < capacity
    ensures |q| == |queue| && work(q) == work(queue) && ItemsOk(g, todo, opt, best, q) && Roomy(q, capacity)
    ensures Followed(g, opt, best, queue) ==> Followed(g, opt, best, q)
  {
    SwapFirst(g, todo, opt, best, queue, capacity);
    WorkSwapped(seeded, work, queue);
    q := Swapped(queue);
  }

  lemma SwapFirst(g: Graph, todo: set<nat>, opt: set<nat>, best: FeeFrac, queue: seq<WorkItem>, capacity: nat)
    requires |queue| > 1 && ItemsOk(g, todo, opt, best, queue) && Roomy(queue, capacity) && |todo| < capacity
    ensures var q := Swapped(queue);
      |q| == |queue| && ItemsOk(g, todo, opt, best, q) && Roomy(q, capacity) && (SomeFits(queue, opt, 0) ==> SomeFits(q, opt, 0))
  {
    SwapItems(g, todo, opt, best, queue);
    SwapRoomy(g, todo, opt, best, queue, capacity);
    if SomeFits(queue, opt, 0) {
      var i :| 0 <= i < |queue| && Fits(queue[i], opt);
      SwapIndex(queue, i);
      var k := if i == 0 then 1 else if i == 1 then 0 else i;
      assert Fits(Swapped(queue)[k], opt);
    }
  }

  lemma SwapIndex(q: seq<WorkItem>, i: nat)
    requires |q| > 1 && i < |q|
    ensures q[i] == Swapped(q)[if i == 0 then 1 else if i == 1 then 0 else i]
    ensures Swapped(q)[i] == q[if i == 0 then 1 else if i == 1 then 0 else i]
  {
  }

  lemma SwapItems(g: Graph, todo: set<nat>, opt: set<nat>, best: FeeFrac, queue: seq<WorkItem>)
    requires |queue| > 1 && ItemsOk(g, todo, opt, best, queue)
    ensures ItemsOk(g, todo, opt, best, Swapped(queue))
  {
    forall i | 0 <= i < |queue| ensures ItemOk(g, todo, opt, best, Swapped(queue)[i]) {
      SwapIndex(queue, i);
    }
  }

  lemma SwapRoomy(g: Graph, todo: set<nat>, opt: set<nat>, best: FeeFrac, queue: seq<WorkItem>, capacity: nat)
    requires |queue| > 1 && ItemsOk(g, todo, opt, best, queue) && Roomy(queue, capacity) && |todo| < capacity
    ensures Roomy(Swapped(queue), capacity)
  {
    assert ItemOk(g, todo, opt, best, queue[0]);
    SubsetCard(queue[0].und, todo);
    forall i | 0 <= i < |queue| ensures i + |Swapped(queue)[i].und| <= capacity {
      SwapIndex(queue, i);
    }
  }

  lemma PrunedIncluded(g: Graph, todo: set<nat>, opt: set<nat>, best: FeeFrac, imp: set<nat>, elem: WorkItem)
    requires Searchable(g, todo) && best.size > 0 && ImpExact(g, todo, best, imp)
    requires ItemOk(g, todo, opt, best, elem) && elem.inc.transactions != {} && elem.und * imp == {}
    ensures Fits(elem, opt) ==> !Ahead(g, opt, best)
  {
    if Fits(elem, opt) {
      PruneNoImprovement(g, todo, best, imp, elem.inc.transactions, elem.und, opt);
    }
  }

  lemma PrunedPotential(g: Graph, todo: set<nat>, opt: set<nat>, best: FeeFrac, elem: WorkItem)
    requires Searchable(g, todo) && CandidateTheory.Best(g, todo, opt) && best.size > 0
    requires ItemOk(g, todo, opt, best, elem) && elem.inc.transactions != {} && elem.potFeerate.AtMost(best)
    ensures Fits(elem, opt) ==> !Ahead(g, opt, best)
  {
    CandidateSize(g, todo, opt);
    if Ahead(g, opt, best) {
      BetterThanAtMost(Sum(g.Rates(), opt), best, elem.potFeerate);
    }
  }

  lemma PrunedEmpty(g: Graph, todo: set<nat>, opt: set<nat>, best: FeeFrac, elem: WorkItem, first: nat)
    requires Searchable(g, todo) && CandidateTheory.Best(g, todo, opt) && best.size > 0
    requires ItemOk(g, todo, opt, best, elem) && elem.inc.transactions == {}
    requires IsFirst(elem.und, first) && At(g.Rates(), first).AtMost(best)
    ensures Fits(elem, opt) ==> !Ahead(g, opt, best)
  {
    if Fits(elem, opt) {
      PruneFirst(g, todo, best, elem.und, first, opt);
    }
  }

  /** Nothing kept after excluding split and its descendants has an excluded ancestor. */
  lemma ExcludedClosed(g: Graph, todo: set<nat>, inc: set<nat>, und: set<nat>, split: nat)
    requires Closed(g) && todo <= g.used && ClosedIn(g, todo, inc) && inc !! und && ClosedIn(g, todo, inc + und) && split in und
    ensures ClosedIn(g, todo, inc + (und - g.Desc(split)))
  {
    var rest := und - g.Desc(split);
    forall x: nat, y: nat | x in inc + rest && y in g.Anc(x) && y in todo ensures y in inc + rest {
      assert x in inc + und && y in inc + und;
    }
  }

  lemma ExcludedPair(g: Graph, todo: set<nat>, inc: SetInfo, und: set<nat>, split: nat)
    requires DepGraphs.Valid(g) && todo <= g.used && PairOk(g, todo, inc, und) && split in und
    ensures PairOk(g, todo, inc, und - g.Desc(split)) && |und - g.Desc(split)| < |und|
  {
    ExcludedClosed(g, todo, inc.transactions, und, split);
    SmallerWithout(und, g.Desc(split), split);
  }

  /** What the halves of a split may still take, and the split itself, fit in the item's share. */
  lemma HalvesShare(seeded: bool, g: Graph, todo: set<nat>, elem: WorkItem, split: nat, excluded: set<nat>, included: set<nat>)
    requires elem.und <= todo && (elem.inc.transactions != {} ==> Plural(elem.und)) && SplitsWell(seeded, g, elem, split)
    requires excluded == elem.und - g.Desc(split) && |excluded| < |elem.und|
    requires included == elem.und - g.Anc(split) * todo && |included| < |elem.und|
    ensures Share(seeded, elem.inc.transactions != {}, |excluded|) + Share(seeded, true, |included|) + 1 <= ItemShare(seeded, elem)
  {
    MinusWithin(elem.und, g.Anc(split), todo);
    if elem.inc.transactions != {} {
      var x: nat, y: nat :| Pair(elem.und, x, y);
      Two(elem.und, x, y);
    }
    SplitShare(seeded, elem.inc.transactions != {}, |elem.und|, |excluded|, |included|);
  }

  lemma MinusWithin(a: set<nat>, b: set<nat>, all: set<nat>)
    requires a <= all
    ensures a - b * all == a - b
  {
  }

  lemma SmallerWithout(und: set<nat>, gone: set<nat>, x: nat)
    requires x in und && x in gone
    ensures |und - gone| < |und|
  {
    assert x !in und - gone;
    Shrinks(und - gone, und);
  }

  lemma IncludedPair(g: Graph, todo: set<nat>, inc: SetInfo, und: set<nat>, split: nat)
    requires DepGraphs.Valid(g) && todo <= g.used && PairOk(g, todo, inc, und) && split in und
    ensures var anc := g.Anc(split) * todo;
      PairOk(g, todo, inc.AddSet(g.Rates(), anc), und - anc) && |und - anc| < |und| && inc.transactions + anc != {}
  {
    var anc := g.Anc(split) * todo;
    AncestorsClosed(g, todo, split);
    SmallerWithout(und, anc, split);
    ClosedUnion(g, todo, inc.transactions, anc);
    AddSetHonest(inc, g.Rates(), anc);
    AllWithin(g, todo, inc.transactions + und, split);
    Regroup(inc.transactions, und, anc);
  }

  lemma AllWithin(g: Graph, todo: set<nat>, s: set<nat>, x: nat)
    requires ClosedIn(g, todo, s) && x in s
    ensures g.Anc(x) * todo <= s
  {
  }

  lemma Regroup(a: set<nat>, b: set<nat>, c: set<nat>)
    requires c <= a + b && a !! b
    ensures (a + c) + (b - c) == a + b && (a + c) !! (b - c)
  {
  }

  /** A best set that fitted the item fits one of its two halves. */
  lemma SplitCovers(g: Graph, todo: set<nat>, opt: set<nat>, elem: WorkItem, split: nat, b1: FeeFrac, b2: FeeFrac, q0: seq<WorkItem>, q1: seq<WorkItem>, q2: seq<WorkItem>)
    requires Searchable(g, todo) && CandidateTheory.Best(g, todo, opt) && b1.size > 0 && b2.size > 0 && !b1.Better(b2)
    requires PairOk(g, todo, elem.inc, elem.und) && split in elem.und
    requires Extends(q0, q1) && Extends(q1, q2)
    requires Compatible(elem.inc.transactions, elem.und - g.Desc(split), opt) && Ahead(g, opt, b1) ==> SomeFits(q1, opt, |q0|)
    requires Compatible(elem.inc.transactions + g.Anc(split) * todo, elem.und - g.Anc(split) * todo, opt) && Ahead(g, opt, b2)
      ==> SomeFits(q2, opt, |q1|)
    ensures Fits(elem, opt) && Ahead(g, opt, b2) ==> SomeFits(q2, opt, |q0|)
  {
    if Fits(elem, opt) && Ahead(g, opt, b2) {
      StillAhead(g, todo, opt, b1, b2);
      if split in opt {
        assert g.Anc(split) * todo <= opt;
        var i :| |q1| <= i < |q2| && Fits(q2[i], opt);
      } else {
        forall d: nat | d in opt ensures d !in g.Desc(split) {
          assert d in g.Desc(split) ==> split in g.Anc(d);
        }
        var i :| |q0| <= i < |q1| && Fits(q1[i], opt);
        assert q2[..|q1|][i] == q1[i];
      }
    }
  }

  /** {max, min} of what stays undecided after including t and after excluding t. */
  function Counts(g: Graph, und: set<nat>, t: nat): (nat, nat) {
    var i, e := |und - g.Anc(t)|, |und - g.Desc(t)|;
    if i < e then (e, i) else (i, e)
  }

  predicate SmallerCounts(a: (nat, nat), b: (nat, nat)) {
    a.0 < b.0 || (a.0 == b.0 && a.1 < b.1)
  }

  lemma Pushed(g: Graph, todo: set<nat>, opt: set<nat>, best: FeeFrac, seeded: bool, work: seq<WorkItem> -> nat,
               queue: seq<WorkItem>, item: WorkItem, und: set<nat>, capacity: nat) returns (q: seq<WorkItem>)
    requires ItemsOk(g, todo, opt, best, queue) && Roomy(queue, capacity) && IsWork(seeded, work)
    requires ItemOk(g, todo, opt, best, item) && item.und <= und && |queue| + |und| <= capacity
    ensures q == queue + [item] && Extends(queue, q) && ItemsOk(g, todo, opt, best, q) && Roomy(q, capacity)
    ensures |queue| < capacity
    ensures work(q) <= work(queue) + Share(seeded, item.inc.transactions != {}, |und|)
    ensures Fits(item, opt) ==> SomeFits(q, opt, |queue|)
  {
    SubsetCard(item.und, und);
    assert |item.und| > 0;
    q := queue + [item];
    assert q[|queue|] == item;
    WorkPushed(seeded, work, queue, item, und);
  }

  lemma EmptyPairFitsNothing(g: Graph, todo: set<nat>, opt: set<nat>, inc: set<nat>)
    requires CandidateTheory.Best(g, todo, opt) && inc == {}
    ensures !Compatible(inc, {}, opt)
  {
  }

  lemma SubsetCard(a: set<nat>, b: set<nat>)
    requires a <= b
    ensures |a| <= |b| && (a != b ==> |a| < |b|)
  {
    if a != b { Shrinks(a, b); }
  }

  lemma NotBetterSelf(x: FeeFrac)
    ensures !x.Better(x)
  {
  }

  lemma BetterAsym(a: FeeFrac, b: FeeFrac)
    requires a.size > 0 && b.size > 0 && a.Better(b)
    ensures !b.Better(a)
  {
  }

  lemma AncestorsClosed(g: Graph, todo: set<nat>, pos: nat)
    requires WellFormed(g) && todo <= g.used && pos in todo
    ensures ClosedIn(g, todo, g.Anc(pos) * todo) && pos in g.Anc(pos) * todo
  {
  }

  lemma NotHigherStays(g: Graph, t: nat, best: FeeFrac, best': FeeFrac)
    requires DepGraphs.Valid(g) && t in g.used && best.size > 0 && best'.size > 0
    requires !At(g.Rates(), t).Higher(best) && best'.Better(best)
    ensures !At(g.Rates(), t).Higher(best')
  {
    AtSize(g, t);
    BetterAsym(best', best);
    NotBetterNotHigher(best, best');
    HigherTrans(best', best, At(g.Rates(), t));
  }

  /** The greedy walk stops at the first transaction that does not raise pot. */
  lemma GreedyStops(g: Graph, todo: set<nat>, inc: set<nat>, und: set<nat>, imp: set<nat>, pot: set<nat>, pos: nat)
    requires Searchable(g, todo) && inc + und <= todo && inc != {} && imp <= todo
    requires pot == inc + Below(imp * und, pos) && pos in imp * und
    requires forall t: nat :: t in pot - inc ==> At(g.Rates(), t).Higher(Sum(g.Rates(), pot))
    requires !At(g.Rates(), pos).Higher(Sum(g.Rates(), pot))
    ensures Greedy(g, inc, und, imp, pot)
  {
    CandidateSize(g, todo, pot);
    forall t: nat | t in (imp * und) - pot ensures !At(g.Rates(), t).Higher(Sum(g.Rates(), pot)) {
      assert t !in Below(imp * und, pos);
      if t != pos {
        AtSize(g, t);
        AtSize(g, pos);
        NotBetterNotHigher(At(g.Rates(), t), At(g.Rates(), pos));
        HigherTrans(Sum(g.Rates(), pot), At(g.Rates(), pos), At(g.Rates(), t));
      }
    }
  }

  lemma JumpedPair(g: Graph, todo: set<nat>, inc: SetInfo, und: set<nat>, pot: SetInfo, txs: set<nat>)
    requires DepGraphs.Valid(g) && todo <= g.used && PairOk(g, todo, inc, und) && inc.transactions != {}
    requires pot.Honest(g.Rates()) && inc.transactions <= txs <= pot.transactions <= inc.transactions + und
    requires ClosedIn(g, todo, txs)
    ensures var inc' := SetInfo(txs, inc.feerate.Add(Sum(g.Rates(), txs - inc.transactions)));
      && PairOk(g, todo, inc', und - txs) && inc'.feerate.size > 0 && pot.feerate.size > 0
      && (pot.feerate.size == inc'.feerate.size ==> pot.feerate == inc'.feerate)
      && (pot.feerate.size != inc'.feerate.size ==> txs != pot.transactions)
  {
    assert txs == inc.transactions + (txs - inc.transactions);
    SumUnion(g.Rates(), inc.transactions, txs - inc.transactions);
    assert txs + (und - txs) == inc.transactions + und;
    CandidateSize(g, todo, txs);
    CandidateSize(g, todo, pot.transactions);
    SumSizeMono(g.Rates(), txs, pot.transactions);
  }

  /** Every transaction below n that pot completes has been included. */
  ghost predicate AllJumped(g: Graph, todo: set<nat>, inc: set<nat>, pot: set<nat>, txs: set<nat>, n: nat) {
    forall pos: nat :: pos in pot - inc && pos < n && g.Anc(pos) * todo <= pot ==> pos in txs
  }

  /** If pot has more than what was included, two transactions at least remain undecided. */
  lemma JumpLeavesTwo(g: Graph, todo: set<nat>, inc: set<nat>, und: set<nat>, pot: set<nat>, txs: set<nat>)
    requires WellFormed(g) && todo <= g.used && ClosedIn(g, todo, inc + und)
    requires inc <= txs <= pot <= inc + und && AllJumped(g, todo, inc, pot, txs, |g.entries|)
    ensures txs != pot ==> Plural(und - txs)
  {
    if txs != pot {
      var x, y := Unjumped(g, todo, inc, und, pot, txs);
    }
  }

  /** An ancestor outside pot kept some transaction of pot from being included. */
  lemma Unjumped(g: Graph, todo: set<nat>, inc: set<nat>, und: set<nat>, pot: set<nat>, txs: set<nat>) returns (x: nat, y: nat)
    requires WellFormed(g) && todo <= g.used && ClosedIn(g, todo, inc + und)
    requires inc <= txs <= pot <= inc + und && AllJumped(g, todo, inc, pot, txs, |g.entries|) && txs != pot
    ensures Pair(und - txs, x, y)
  {
    NoDifference(pot, txs);
    x :| x in pot - txs;
    AllWithin(g, todo, inc + und, x);
    NoDifference(g.Anc(x) * todo, pot);
    y :| y in g.Anc(x) * todo - pot;
  }

  lemma NoneAloneStays(g: Graph, todo: set<nat>, best: FeeFrac, best': FeeFrac)
    requires DepGraphs.Valid(g) && todo <= g.used && best.size > 0 && best'.size > 0
    requires NoneAloneBeats(g, todo, best) && !best.Better(best')
    ensures NoneAloneBeats(g, todo, best')
  {
    forall t: nat | Alone(g, todo, t) ensures !At(g.Rates(), t).Better(best') {
      AtSize(g, t);
      AtLeastTrans(best', best, At(g.Rates(), t));
    }
  }

  /** The new work item is usable, and carries opt if opt fitted before. */
  lemma AddedItem(g: Graph, todo: set<nat>, opt: set<nat>, b0: FeeFrac, b1: FeeFrac, imp: set<nat>, inc: SetInfo, und: set<nat>, pot: SetInfo, item: WorkItem)
    requires Searchable(g, todo) && CandidateTheory.Best(g, todo, opt) && b0.size > 0 && b1.size > 0 && !b0.Better(b1)
    requires ImpExact(g, todo, b0, imp) && PairOk(g, todo, inc, und) && inc.transactions != {}
    requires pot.Honest(g.Rates()) && Greedy(g, inc.transactions, und, imp, pot.transactions) && pot.feerate.size > 0
    requires item.potFeerate == pot.feerate && item.und == und - item.inc.transactions
    requires inc.transactions <= item.inc.transactions <= pot.transactions && PairOk(g, todo, item.inc, item.und)
    requires item.inc.feerate.size > 0 && !item.inc.feerate.Better(b1)
    requires Compatible(inc.transactions, und, opt) && Ahead(g, opt, b0) ==> item.inc.transactions <= opt
    ensures Plural(item.und) ==> ItemOk(g, todo, opt, b1, item)
    ensures Compatible(inc.transactions, und, opt) && Ahead(g, opt, b1) ==> Fits(item, opt) && pot.feerate != item.inc.feerate
  {
    CandidateSize(g, todo, opt);
    if Ahead(g, opt, b1) {
      BetterThanAtMost(Sum(g.Rates(), opt), b1, b0);
      if Fits(item, opt) {
        assert Compatible(inc.transactions, und, opt);
      }
      if Compatible(inc.transactions, und, opt) {
        PotBounds(g, todo, b0, imp, inc.transactions, und, pot.transactions, opt);
        BetterThanAtMost(Sum(g.Rates(), opt), b1, item.inc.feerate);
      }
    }
  }
}
