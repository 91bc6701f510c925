/**
 Merging two linearizations into one that is at least as good as both
 (MergeLinearizations, src/cluster_linearize.h:1297-1337).
 */
module Merging {
  import opened FeeFracs
  import opened TxSets
  import opened Chunking
  import opened Diagrams
  import opened DepGraphs
  import opened Linearizations
  import opened LinearizationChunkings

  /**
   `ret` has been output and `todo` remains: finishing with what remains of lin gives a valid
   linearization that is at least as good as lin.
   */
  ghost predicate Finishable(g: Graph, lin: seq<nat>, todo: set<nat>, ret: seq<nat>) {
    && IsLinearization(g, ret + Filter(lin, todo), g.used)
    && Dominates(g.Rates(), ret + Filter(lin, todo), lin)
  }

  lemma FinishableAtStart(g: Graph, lin: seq<nat>)
    requires IsLinearization(g, lin, g.used)
    ensures Finishable(g, lin, g.used, [])
  {
    FilterProps(lin, g.used);
    assert [] + Filter(lin, g.used) == lin;
  }

  /** Outputting a closed set first, if that does not worsen what remains of lin. */
  lemma FinishableStep(g: Graph, lin: seq<nat>, todo: set<nat>, ret: seq<nat>, front: set<nat>, t: seq<nat>)
    requires Valid(g) && IsLinearization(g, lin, g.used) && todo <= g.used
    requires Finishable(g, lin, todo, ret) && ClosedIn(g, todo, front) && IsLinearization(g, t, front)
    requires Dominates(g.Rates(), t + Filter(Filter(lin, todo), todo - front), Filter(lin, todo))
    ensures Finishable(g, lin, todo - front, ret + t)
  {
    var rest := Filter(lin, todo);
    var rest' := Filter(lin, todo - front);
    FilterFilter(lin, todo, todo - front);
    assert todo * (todo - front) == todo - front;
    assert Filter(rest, todo - front) == rest';
    FilterIsLinearization(g, lin, g.used, todo);
    FilterIsLinearization(g, lin, g.used, todo - front);
    FrontAndRest(g, todo, front, t, rest');
    ReplaceRest(g, ret, rest, t + rest');
    DominatesAfter(g.Rates(), ret, t + rest', rest);
    assert ret + t + rest' == ret + (t + rest');
    DominatesTrans(g.Rates(), ret + t + rest', ret + rest, lin);
  }

  /** Reordering what follows ret keeps the whole a linearization. */
  lemma ReplaceRest(g: Graph, ret: seq<nat>, rest: seq<nat>, rest': seq<nat>)
    requires IsLinearization(g, ret + rest, g.used)
    requires IsLinearization(g, rest', Elems(rest))
    ensures IsLinearization(g, ret + rest', g.used)
  {
    NoDupConcat(ret, rest);
    NoDupConcat(ret, rest');
    ElemsConcat(ret, rest);
    ElemsConcat(ret, rest');
    TopologicalConcat(g, ret, rest);
    TopologicalConcat(g, ret, rest');
  }

  /** All chunks are at or below the first one, hence at or below anything not below it. */
  lemma NoChunkAbove(r: Rates, l: seq<nat>, cs: seq<seq<nat>>, c: FeeFrac)
    requires AllSized(r, l) && IsChunking(r, l, cs) && cs != [] && c.size > 0
    requires !SeqSum(r, cs[0]).Higher(c)
    ensures forall i :: 0 <= i < |cs| ==> !SeqSum(r, cs[i]).Higher(c)
  {
    forall i | 0 <= i < |cs| ensures !SeqSum(r, cs[i]).Higher(c) {
      if i > 0 {
        ChunkSized(r, cs, 0);
        ChunkSized(r, cs, i);
        HigherTrans(c, SeqSum(r, cs[0]), SeqSum(r, cs[i]));
      }
    }
  }

  /** A part of the first chunk, of no lower feerate, is safe to move first. */
  lemma PartOfFirstChunkIsSafe(r: Rates, l: seq<nat>, cs: seq<seq<nat>>, front: set<nat>)
    requires AllSized(r, l) && NoDup(l) && IsChunking(r, l, cs) && cs != []
    requires front <= Elems(cs[0]) && !Sum(r, front).Lower(SeqSum(r, cs[0]))
    ensures SafeFront(r, cs, SeqSum(r, cs[0]), front)
  {
    var c := SeqSum(r, cs[0]);
    ChunkSized(r, cs, 0);
    NoChunkAbove(r, l, cs, c);
    HigherIsAbove(Sum(r, front), c);
    forall k | 1 <= k <= |cs| ensures front <= ChunkPrefix(cs, k) {
      NextPrefix(cs, 0);
      PrefixMono(cs, 1, k);
    }
  }

  /** What is known about one remaining linearization and its chunks. */
  ghost predicate Chunked(g: Graph, l: seq<nat>, cs: seq<seq<nat>>, todo: set<nat>) {
    IsLinearization(g, l, todo) && AllSized(g.Rates(), l) && IsChunking(g.Rates(), l, cs) && cs != []
  }

  /** The first chunk of src, intersected with prefixes of dst: safe to move first in both. */
  lemma MergeFront(g: Graph, todo: set<nat>, src: seq<nat>, cs: seq<seq<nat>>, dst: seq<nat>, ds: seq<seq<nat>>, front: set<nat>, t: seq<nat>)
    requires Chunked(g, src, cs, todo) && Chunked(g, dst, ds, todo)
    requires !SeqSum(g.Rates(), ds[0]).Higher(SeqSum(g.Rates(), cs[0]))
    requires IsShortestIntersection(g.Rates(), ds, Elems(cs[0]), front)
    requires NoDup(t) && Elems(t) == front
    ensures ClosedIn(g, todo, front) && front != {}
    ensures Dominates(g.Rates(), t + Filter(src, todo - front), src)
    ensures Dominates(g.Rates(), t + Filter(dst, todo - front), dst)
  {
    var r := g.Rates();
    FirstChunk(g, src, cs, todo);
    IntersectionClosed(g, dst, todo, ds, Elems(cs[0]), front);
    PartOfFirstChunkIsSafe(r, src, cs, front);
    SafeFrontDominates(r, src, cs, SeqSum(r, cs[0]), front, t);
    NoChunkAbove(r, dst, ds, SeqSum(r, cs[0]));
    IntersectionIsSafe(r, dst, ds, Elems(cs[0]), front);
    SafeFrontDominates(r, dst, ds, SeqSum(r, cs[0]), front, t);
  }

  lemma FirstChunk(g: Graph, l: seq<nat>, cs: seq<seq<nat>>, todo: set<nat>)
    requires Chunked(g, l, cs, todo)
    ensures ClosedIn(g, todo, Elems(cs[0])) && Elems(cs[0]) != {}
    ensures SeqSum(g.Rates(), cs[0]) == Sum(g.Rates(), Elems(cs[0])) && SeqSum(g.Rates(), cs[0]).size > 0
  {
    assert l == cs[0] + Flatten(cs[1..]);
    PrefixClosed(g, cs[0], Flatten(cs[1..]), todo);
    assert cs[0][0] in Elems(cs[0]);
    ChunkSized(g.Rates(), cs, 0);
    NoDupConcat(cs[0], Flatten(cs[1..]));
    SubSeqSum(g.Rates(), l, cs[0]);
  }

  /** The chunking object sees what remains of its linearization. */
  lemma ObjectChunked(c: LinearizationChunking)
    requires c.Valid() && c.todo != {} && IsLinearization(c.g, c.original, c.g.used)
    ensures c.chunksSkip < |c.chunks|
    ensures Chunked(c.g, Filter(c.original, c.todo), RemainingChunks(c.g.Rates(), c.original, c.todo), c.todo)
    ensures c.GetChunk(0) == InfoOf(c.g.Rates(), RemainingChunks(c.g.Rates(), c.original, c.todo)[0])
  {
    c.RemainingIsChunked();
    c.FirstChunkIsFirst();
    FilterIsLinearization(c.g, c.original, c.g.used, c.todo);
  }

  lemma NoElems(l: seq<nat>)
    ensures Elems(l) == {} <==> l == []
  {
    if l != [] { assert l[0] in Elems(l); }
  }

  lemma ObjectEmpty(c: LinearizationChunking)
    requires c.Valid()
    ensures c.NumChunksLeft() == 0 <==> c.todo == {}
  {
    c.RemainingIsChunked();
    var l := Filter(c.original, c.todo);
    assert |c.chunks[c.chunksSkip..]| == |Chunks(c.g.Rates(), l)|;
    if c.todo == {} {
      NoElems(l);
    } else {
      c.FirstChunkIsFirst();
    }
  }

  /** Choose the set to output: the better first chunk, intersected with prefixes of the other. */
  method ChooseFront(chunking1: LinearizationChunking, chunking2: LinearizationChunking) returns (best: SetInfo)
    requires chunking1.Valid() && chunking2.Valid() && chunking1.g == chunking2.g
    requires chunking1.todo == chunking2.todo != {}
    requires IsLinearization(chunking1.g, chunking1.original, chunking1.g.used)
    requires IsLinearization(chunking2.g, chunking2.original, chunking2.g.used)
    ensures best.transactions != {} && ClosedIn(chunking1.g, chunking1.todo, best.transactions)
    ensures forall t: seq<nat> :: NoDup(t) && Elems(t) == best.transactions ==>
      MovedWell(chunking1.g, chunking1.original, chunking1.todo, t)
      && MovedWell(chunking2.g, chunking2.original, chunking2.todo, t)
  {
    ObjectChunked(chunking1);
    ObjectChunked(chunking2);
    ghost var g, todo := chunking1.g, chunking1.todo;
    ghost var l1, l2 := Filter(chunking1.original, todo), Filter(chunking2.original, todo);
    ghost var cs1, cs2 := Chunks(g.Rates(), l1), Chunks(g.Rates(), l2);
    var first1 := chunking1.GetChunk(0);
    var first2 := chunking2.GetChunk(0);
    FirstChunk(g, l1, cs1, todo);
    FirstChunk(g, l2, cs2, todo);
    if first2.feerate.Higher(first1.feerate) {
      best := chunking1.IntersectPrefixes(first2);
      forall t: seq<nat> | NoDup(t) && Elems(t) == best.transactions
        ensures MovedWell(g, chunking1.original, todo, t) && MovedWell(g, chunking2.original, todo, t)
      {
        MergeFront(g, todo, l2, cs2, l1, cs1, best.transactions, t);
      }
      IntersectionClosed(g, l1, todo, cs1, first2.transactions, best.transactions);
    } else {
      best := chunking2.IntersectPrefixes(first1);
      forall t: seq<nat> | NoDup(t) && Elems(t) == best.transactions
        ensures MovedWell(g, chunking1.original, todo, t) && MovedWell(g, chunking2.original, todo, t)
      {
        MergeFront(g, todo, l1, cs1, l2, cs2, best.transactions, t);
      }
      IntersectionClosed(g, l2, todo, cs2, first1.transactions, best.transactions);
    }
  }

  /** Moving t to the front of what remains of lin does not make it worse. */
  ghost predicate MovedWell(g: Graph, lin: seq<nat>, todo: set<nat>, t: seq<nat>) {
    Dominates(g.Rates(), t + Filter(Filter(lin, todo), todo - Elems(t)), Filter(lin, todo))
  }

  /** Output a set that both remaining linearizations can start with. */
  method Emit(g: Graph, ret: seq<nat>, front: set<nat>, ghost lin1: seq<nat>, ghost lin2: seq<nat>, ghost todo: set<nat>)
    returns (ret': seq<nat>)
    requires Valid(g) && todo <= g.used && ClosedIn(g, todo, front)
    requires IsLinearization(g, lin1, g.used) && IsLinearization(g, lin2, g.used)
    requires Finishable(g, lin1, todo, ret) && Finishable(g, lin2, todo, ret)
    requires forall t: seq<nat> :: NoDup(t) && Elems(t) == front ==> MovedWell(g, lin1, todo, t) && MovedWell(g, lin2, todo, t)
    ensures Finishable(g, lin1, todo - front, ret') && Finishable(g, lin2, todo - front, ret')
  {
    ret' := AppendTopo(g, ret, front);
    ghost var t :| IsLinearization(g, t, front) && ret' == ret + t;
    assert MovedWell(g, lin1, todo, t) && MovedWell(g, lin2, todo, t);
    FinishableStep(g, lin1, todo, ret, front, t);
    FinishableStep(g, lin2, todo, ret, front, t);
  }

  /** The result is a valid linearization, at least as good as each input everywhere. */
  method MergeLinearizations(g: Graph, lin1: seq<nat>, lin2: seq<nat>) returns (ret: seq<nat>)
    requires Valid(g) && IsLinearization(g, lin1, g.used) && IsLinearization(g, lin2, g.used)
    ensures IsLinearization(g, ret, g.used)
    ensures AtLeastAsGood(g, ret, lin1) && AtLeastAsGood(g, ret, lin2)
  {
    var chunking1 := new LinearizationChunking(g, lin1);
    var chunking2 := new LinearizationChunking(g, lin2);
    ret := [];
    FinishableAtStart(g, lin1);
    FinishableAtStart(g, lin2);
    if g.used == {} {
      NoElems(lin1);
      NoElems(lin2);
      SameSetGoodness(g, ret, lin1, g.used);
      SameSetGoodness(g, ret, lin2, g.used);
      return;
    }
    ghost var todo := g.used;
    while true
      invariant chunking1 != chunking2 && fresh(chunking1) && fresh(chunking2)
      invariant chunking1.Valid() && chunking1.g == g && chunking1.original == lin1 && chunking1.todo == todo
      invariant chunking2.Valid() && chunking2.g == g && chunking2.original == lin2 && chunking2.todo == todo
      invariant todo != {} && todo <= g.used
      invariant Finishable(g, lin1, todo, ret) && Finishable(g, lin2, todo, ret)
      decreases |todo|
    {
      var best := ChooseFront(chunking1, chunking2);
      ret := Emit(g, ret, best.transactions, lin1, lin2, todo);
      Shrinks(todo - best.transactions, todo);
      todo := todo - best.transactions;
      chunking1.MarkDone(best.transactions);
      ObjectEmpty(chunking1);
      if chunking1.NumChunksLeft() == 0 {
        break;
      }
      chunking2.MarkDone(best.transactions);
    }
    NothingLeft(g, lin1, ret);
    NothingLeft(g, lin2, ret);
    SameSetGoodness(g, ret, lin1, g.used);
    SameSetGoodness(g, ret, lin2, g.used);
  }

  lemma NothingLeft(g: Graph, lin: seq<nat>, ret: seq<nat>)
    requires Finishable(g, lin, {}, ret)
    ensures IsLinearization(g, ret, g.used) && Dominates(g.Rates(), ret, lin)
  {
    FilterProps(lin, {});
    assert ret + [] == ret;
  }
}
