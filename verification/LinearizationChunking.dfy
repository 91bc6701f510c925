/**
 The chunking of a linearization while transactions are removed from it
 (ChunkLinearization and LinearizationChunking, src/cluster_linearize.h:369-517).
 */
module LinearizationChunkings {
  import opened FeeFracs
  import opened TxSets
  import opened Chunking
  import opened Diagrams
  import opened DepGraphs
  import opened Linearizations

  /** The feerates of the chunks of a linearization. */
  method ChunkLinearization(g: Graph, linearization: seq<nat>) returns (ret: seq<FeeFrac>)
    requires forall i :: 0 <= i < |linearization| ==> linearization[i] < |g.entries|
    ensures ret == DiagramOf(g.Rates(), linearization)
  {
    ret := [];
    for k := 0 to |linearization|
      invariant ret == DiagramOf(g.Rates(), linearization[..k])
    {
      var i := linearization[k];
      var newChunk := g.entries[i].feerate;
      ghost var cs, seg := Chunks(g.Rates(), linearization[..k]), [i];
      ChunksSnoc(g.Rates(), linearization[..k], i);
      assert linearization[..k + 1] == linearization[..k] + [i];
      while ret != [] && newChunk.Higher(ret[|ret| - 1])
        invariant ret == ChunkRates(g.Rates(), cs) && newChunk == SeqSum(g.Rates(), seg)
        invariant Absorb(g.Rates(), cs, seg) == Chunks(g.Rates(), linearization[..k + 1])
      {
        AbsorbStep(g.Rates(), cs, seg);
        seg := cs[|cs| - 1] + seg;
        cs := cs[..|cs| - 1];
        newChunk := newChunk.Add(ret[|ret| - 1]);
        ret := ret[..|ret| - 1];
      }
      RatesSnoc(g.Rates(), cs, seg);
      ret := ret + [newChunk];
    }
    assert linearization[..|linearization|] == linearization;
  }

  lemma ChunksSnoc(r: Rates, before: seq<nat>, x: nat)
    ensures Chunks(r, before + [x]) == Absorb(r, Chunks(r, before), [x])
    ensures SeqSum(r, [x]) == At(r, x) && Elems([x]) == {x}
  {
    assert (before + [x])[..|before|] == before;
    assert [x][1..] == [];
  }

  /** One absorption: the last chunk joins the new one from the left. */
  lemma AbsorbStep(r: Rates, cs: seq<seq<nat>>, seg: seq<nat>)
    requires cs != [] && SeqSum(r, seg).Higher(SeqSum(r, cs[|cs| - 1]))
    ensures Absorb(r, cs, seg) == Absorb(r, cs[..|cs| - 1], cs[|cs| - 1] + seg)
    ensures SeqSum(r, cs[|cs| - 1] + seg) == SeqSum(r, seg).Add(SeqSum(r, cs[|cs| - 1]))
    ensures ChunkRates(r, cs)[..|cs| - 1] == ChunkRates(r, cs[..|cs| - 1])
    ensures InfosOf(r, cs)[..|cs| - 1] == InfosOf(r, cs[..|cs| - 1])
    ensures InfoOf(r, cs[|cs| - 1] + seg) == InfoOf(r, seg).Union(InfoOf(r, cs[|cs| - 1]))
  {
    SeqSumConcat(r, cs[|cs| - 1], seg);
    ElemsConcat(cs[|cs| - 1], seg);
  }

  lemma {:induction false} RatesSnoc(r: Rates, cs: seq<seq<nat>>, seg: seq<nat>)
    ensures ChunkRates(r, cs + [seg]) == ChunkRates(r, cs) + [SeqSum(r, seg)]
  {
  }

  // ---------------------------------------------------------------- chunks as sets

  function InfoOf(r: Rates, seg: seq<nat>): SetInfo {
    SetInfo(Elems(seg), SeqSum(r, seg))
  }

  function InfosOf(r: Rates, cs: seq<seq<nat>>): (infos: seq<SetInfo>)
    ensures |infos| == |cs|
    ensures forall i :: 0 <= i < |cs| ==> infos[i] == InfoOf(r, cs[i])
  {
    if cs == [] then [] else [InfoOf(r, cs[0])] + InfosOf(r, cs[1..])
  }

  /** The chunks of what remains of a linearization, computed from scratch. */
  function RemainingChunks(r: Rates, original: seq<nat>, todo: set<nat>): seq<seq<nat>> {
    Chunks(r, Filter(original, todo))
  }

  // ---------------------------------------------------------------- skipping done transactions

  /** Keeping all but the first k kept members leaves the kept members from position k on. */
  lemma FilterLater(l: seq<nat>, todo: set<nat>, k: nat)
    requires NoDup(l) && k <= |Filter(l, todo)|
    ensures Filter(l, todo - Elems(Filter(l, todo)[..k])) == Filter(l, todo)[k..]
  {
    var f := Filter(l, todo);
    var keep := todo - Elems(f[..k]);
    FilterProps(l, todo);
    FilterFilter(l, todo, keep);
    assert todo * keep == keep;
    assert f == f[..k] + f[k..];
    NoDupConcat(f[..k], f[k..]);
    ElemsConcat(f[..k], f[k..]);
    FilterConcat(f[..k], f[k..], keep);
    FilterProps(f[..k], keep);
    FilterProps(f[k..], keep);
  }

  /** None of the first k members of l survives when the first k kept ones are dropped. */
  lemma FilterSkip(l: seq<nat>, todo: set<nat>, k: nat)
    requires NoDup(l) && k <= |Filter(l, todo)|
    ensures Filter(l[k..], todo - Elems(Filter(l, todo)[..k])) == Filter(l, todo)[k..]
  {
    var f := Filter(l, todo);
    var gone := Elems(f[..k]);
    var a, b := l[..k], l[k..];
    assert l == a + b;
    FilterConcat(a, b, todo - gone);
    FilterGone(a, b, todo, k);
    FilterProps(a, todo - gone);
    assert [] + Filter(b, todo - gone) == Filter(b, todo - gone);
    FilterLater(l, todo, k);
  }

  /** What the first k positions kept is among the first k kept. */
  lemma FilterGone(a: seq<nat>, b: seq<nat>, todo: set<nat>, k: nat)
    requires |a| == k <= |Filter(a + b, todo)|
    ensures Elems(a) !! (todo - Elems(Filter(a + b, todo)[..k]))
  {
    var f, fa := Filter(a + b, todo), Filter(a, todo);
    FilterConcat(a, b, todo);
    FilterProps(a, todo);
    assert f[..k] == fa + f[..k][|fa|..];
    ElemsConcat(fa, f[..k][|fa|..]);
  }

  lemma FilterAgain(a: seq<nat>, b: seq<nat>, todo: set<nat>, subset: set<nat>)
    requires Filter(a, todo) == Filter(b, todo)
    ensures Filter(a, todo - subset) == Filter(b, todo - subset)
  {
    FilterFilter(a, todo, todo - subset);
    FilterFilter(b, todo, todo - subset);
    assert todo * (todo - subset) == todo - subset;
  }

  lemma FilterSkipDone(l: seq<nat>, todo: set<nat>)
    requires l != [] && l[0] !in todo
    ensures Filter(l[1..], todo) == Filter(l, todo)
  {
  }

  lemma FilterSnoc(l: seq<nat>, x: nat, todo: set<nat>)
    ensures Filter(l + [x], todo) == if x in todo then Filter(l, todo) + [x] else Filter(l, todo)
  {
    FilterConcat(l, [x], todo);
    assert Filter([x][1..], todo) == [];
  }

  lemma InfosTail(r: Rates, cs: seq<seq<nat>>)
    requires cs != []
    ensures InfosOf(r, cs)[1..] == InfosOf(r, cs[1..])
  {
  }

  lemma InfosSnoc(r: Rates, cs: seq<seq<nat>>, seg: seq<nat>)
    ensures InfosOf(r, cs + [seg]) == InfosOf(r, cs) + [InfoOf(r, seg)]
  {
  }

  lemma FirstChunkInfo(r: Rates, l: seq<nat>)
    requires AllSized(r, l) && Elems(l) != {} && NoDup(l)
    ensures Chunks(r, l) != []
    ensures var c0 := Chunks(r, l)[0];
      && |c0| <= |l| && l[..|c0|] == c0 && |Elems(c0)| == |c0|
      && Chunks(r, l[|c0|..]) == Chunks(r, l)[1..]
  {
    assert l != [];
    ChunksTail(r, l);
    var c0 := Chunks(r, l)[0];
    assert l == c0 + l[|c0|..];
    NoDupConcat(c0, l[|c0|..]);
    ElemsCard(c0);
  }

  /** What the fast path of MarkDone relies on. */
  lemma SkipFirstChunk(r: Rates, original: seq<nat>, linearization: seq<nat>, todo: set<nat>)
    requires NoDup(original) && NoDup(linearization) && Filter(linearization, todo) == Filter(original, todo)
    requires AllSized(r, Filter(original, todo)) && Elems(Filter(original, todo)) != {} && NoDup(Filter(original, todo))
    requires Chunks(r, Filter(original, todo)) != []
    ensures var subset := Elems(Chunks(r, Filter(original, todo))[0]);
      && |subset| <= |linearization| && NoDup(linearization[|subset|..])
      && Elems(linearization[|subset|..]) <= Elems(linearization)
      && Filter(linearization[|subset|..], todo - subset) == Filter(original, todo - subset)
      && Chunks(r, Filter(original, todo - subset)) == Chunks(r, Filter(original, todo))[1..]
  {
    var l := Filter(original, todo);
    FirstChunkInfo(r, l);
    var c0 := Chunks(r, l)[0];
    FilterSkip(linearization, todo, |c0|);
    FilterLater(original, todo, |c0|);
    var a, b := linearization[..|c0|], linearization[|c0|..];
    assert linearization == a + b;
    NoDupConcat(a, b);
    ElemsConcat(a, b);
  }

  // ---------------------------------------------------------------- the class

  class LinearizationChunking {
    const g: Graph
    /** The linearization we started from, with some removed prefix stripped. */
    var linearization: seq<nat>
    var chunks: seq<SetInfo>
    /** How many leading chunks are done. */
    var chunksSkip: nat
    var todo: set<nat>
    /** The linearization this object was created for. */
    ghost const original: seq<nat>

    ghost predicate Base()
      reads this
    {
      && DepGraphs.Valid(g)
      && NoDup(original) && NoDup(linearization)
      && Elems(original) <= g.used && Elems(linearization) <= Elems(original) && todo <= Elems(original)
      && Filter(linearization, todo) == Filter(original, todo)
    }

    /** The chunks left are those of what remains of the original linearization. */
    ghost predicate Valid()
      reads this
    {
      && Base()
      && chunksSkip <= |chunks|
      && chunks[chunksSkip..] == InfosOf(g.Rates(), RemainingChunks(g.Rates(), original, todo))
    }

    /** Rebuild chunks from linearization and todo. */
    method BuildChunks()
      requires Base() && chunks == [] && chunksSkip == 0
      modifies this`linearization, this`chunks
      ensures Valid()
    {
      while linearization != [] && linearization[0] !in todo
        invariant Base() && chunks == []
        decreases |linearization|
      {
        FilterSkipDone(linearization, todo);
        assert linearization == [linearization[0]] + linearization[1..];
        NoDupConcat([linearization[0]], linearization[1..]);
        ElemsConcat([linearization[0]], linearization[1..]);
        linearization := linearization[1..];
      }
      ghost var lin := linearization;
      for k := 0 to |linearization|
        invariant linearization == lin && Base()
        invariant chunks == InfosOf(g.Rates(), Chunks(g.Rates(), Filter(linearization[..k], todo)))
      {
        var idx := linearization[k];
        assert linearization[..k + 1] == linearization[..k] + [idx];
        FilterSnoc(linearization[..k], idx, todo);
        if idx in todo {
          assert idx in Elems(linearization);
          ghost var before := Filter(linearization[..k], todo);
          ChunksSnoc(g.Rates(), before, idx);
          PushChunk(SetInfo({idx}, g.entries[idx].feerate), Chunks(g.Rates(), before), [idx]);
        }
      }
      assert linearization[..|linearization|] == linearization;
    }

    /** Append a chunk, absorbing final chunks of lower feerate. */
    method PushChunk(info: SetInfo, ghost cs0: seq<seq<nat>>, ghost seg0: seq<nat>)
      requires chunks == InfosOf(g.Rates(), cs0) && info == InfoOf(g.Rates(), seg0)
      modifies this`chunks
      ensures chunks == InfosOf(g.Rates(), Absorb(g.Rates(), cs0, seg0))
    {
      var add := info;
      ghost var cs, seg := cs0, seg0;
      while chunks != [] && add.feerate.Higher(chunks[|chunks| - 1].feerate)
        invariant chunks == InfosOf(g.Rates(), cs) && add == InfoOf(g.Rates(), seg)
        invariant Absorb(g.Rates(), cs, seg) == Absorb(g.Rates(), cs0, seg0)
        decreases |chunks|
      {
        AbsorbStep(g.Rates(), cs, seg);
        add := add.Union(chunks[|chunks| - 1]);
        chunks := chunks[..|chunks| - 1];
        seg := cs[|cs| - 1] + seg;
        cs := cs[..|cs| - 1];
      }
      InfosSnoc(g.Rates(), cs, seg);
      chunks := chunks + [add];
    }

    constructor (g: Graph, lin: seq<nat>)
      requires DepGraphs.Valid(g) && NoDup(lin) && Elems(lin) <= g.used
      ensures Valid() && this.g == g && original == lin && todo == Elems(lin)
    {
      this.g := g;
      linearization := lin;
      original := lin;
      chunks := [];
      chunksSkip := 0;
      todo := Elems(lin);
      new;
      BuildChunks();
    }

    function NumChunksLeft(): nat
      requires chunksSkip <= |chunks|
      reads this
    {
      |chunks| - chunksSkip
    }

    function GetChunk(n: nat): SetInfo
      requires n + chunksSkip < |chunks|
      reads this
    {
      chunks[n + chunksSkip]
    }

    /**
     Remove a subset. When it is exactly the first remaining chunk, only a counter moves;
     either way the chunks left are those computed from scratch for what remains.
     */
    method MarkDone(subset: set<nat>)
      requires Valid() && subset != {} && subset <= todo
      modifies this
      ensures Valid() && todo == old(todo) - subset
    {
      FirstChunkIsFirst();
      if GetChunk(0).transactions == subset {
        SkipChunk(subset);
      } else {
        FilterAgain(original, linearization, todo, subset);
        todo := todo - subset;
        chunks := [];
        chunksSkip := 0;
        BuildChunks();
      }
    }

    lemma FirstChunkIsFirst()
      requires Valid() && todo != {}
      ensures RemainingChunks(g.Rates(), original, todo) != [] && chunksSkip < |chunks|
      ensures GetChunk(0) == InfoOf(g.Rates(), RemainingChunks(g.Rates(), original, todo)[0])
    {
      RemainingIsChunked();
      FirstChunkInfo(g.Rates(), Filter(original, todo));
      assert chunks[chunksSkip..][0] == InfosOf(g.Rates(), RemainingChunks(g.Rates(), original, todo))[0];
    }

    /** The fast path of MarkDone: no rechunking. */
    method SkipChunk(subset: set<nat>)
      requires Valid() && subset != {} && subset <= todo
      requires RemainingChunks(g.Rates(), original, todo) != []
      requires subset == Elems(RemainingChunks(g.Rates(), original, todo)[0])
      modifies this
      ensures Valid() && todo == old(todo) - subset
    {
      RemainingIsChunked();
      SkipFirstChunk(g.Rates(), original, linearization, todo);
      ghost var cs := RemainingChunks(g.Rates(), original, todo);
      assert |chunks[chunksSkip..]| == |cs|;
      assert chunks[chunksSkip + 1..] == chunks[chunksSkip..][1..];
      InfosTail(g.Rates(), cs);
      todo := todo - subset;
      chunksSkip := chunksSkip + 1;
      linearization := linearization[|subset|..];
    }

    /**
     The shortest intersection of subset with a prefix of the remaining chunks whose feerate is
     not below subset's.
     */
    method IntersectPrefixes(subset: SetInfo) returns (ret: SetInfo)
      requires Valid() && subset.transactions <= todo && subset.Honest(g.Rates())
      ensures ret.Honest(g.Rates())
      ensures IsShortestIntersection(g.Rates(), RemainingChunks(g.Rates(), original, todo), subset.transactions, ret.transactions)
    {
      ghost var cs := RemainingChunks(g.Rates(), original, todo);
      ghost var all := subset.transactions;
      RemainingIsChunked();
      var accumulator := NoSet;
      ghost var reached := 0;
      NothingAccumulated(g.Rates(), cs, all);
      for i := 0 to NumChunksLeft()
        invariant reached == i && Accumulated(g.Rates(), cs, all, accumulator, i)
      {
        assert chunks[chunksSkip..][i] == InfoOf(g.Rates(), cs[i]);
        var toAdd := GetChunk(i).transactions * subset.transactions;
        NextIntersection(g.Rates(), cs, all, accumulator, i);
        if toAdd != {} {
          accumulator := accumulator.(transactions := accumulator.transactions + toAdd);
          if accumulator.transactions == subset.transactions {
            break;
          }
          accumulator := accumulator.(feerate := accumulator.feerate.Add(Sum(g.Rates(), toAdd)));
          if !accumulator.feerate.Lower(subset.feerate) {
            StopAt(g.Rates(), cs, all, i);
            return accumulator;
          }
        }
        reached := i + 1;
      }
      StopWithAll(g.Rates(), cs, all, reached);
      return subset;
    }

    lemma RemainingIsChunked()
      requires Valid()
      ensures var l := Filter(original, todo);
        && IsChunking(g.Rates(), l, RemainingChunks(g.Rates(), original, todo))
        && NoDup(l) && Elems(l) == todo && AllSized(g.Rates(), l)
    {
      FilterProps(original, todo);
      assert Elems(original) * todo == todo;
      SizedToAllSized(g, Filter(original, todo), todo);
      ChunksCorrect(g.Rates(), Filter(original, todo));
    }
  }

  // ---------------------------------------------------------------- intersections with chunk prefixes

  ghost predicate TooShort(r: Rates, all: set<nat>, part: set<nat>) {
    part == {} || Sum(r, part).Lower(Sum(r, all))
  }

  /**
   ret is all of `all`, or its intersection with a prefix of the chunks, with a feerate not
   below that of `all`; every intersection with a shorter prefix is empty or has a lower feerate.
   */
  ghost predicate IsShortestIntersection(r: Rates, cs: seq<seq<nat>>, all: set<nat>, ret: set<nat>) {
    && ret <= all && (ret == {} ==> all == {}) && !Sum(r, ret).Lower(Sum(r, all))
    && (ret == all || exists j :: 0 <= j <= |cs| && ret == all * ChunkPrefix(cs, j))
    && forall k :: 0 <= k <= |cs| ==>
        || ret <= ChunkPrefix(cs, k)
        || (ret * ChunkPrefix(cs, k) == all * ChunkPrefix(cs, k) && TooShort(r, all, all * ChunkPrefix(cs, k)))
  }

  lemma NextPrefix(cs: seq<seq<nat>>, i: nat)
    requires i < |cs|
    ensures ChunkPrefix(cs, i + 1) == ChunkPrefix(cs, i) + Elems(cs[i])
    ensures NoDup(Flatten(cs)) ==> ChunkPrefix(cs, i) !! Elems(cs[i])
  {
    assert cs[..i + 1] == cs[..i] + [cs[i]];
    FlattenSnoc(cs[..i], cs[i]);
    ElemsConcat(Flatten(cs[..i]), cs[i]);
    FlattenPrefix(cs, i + 1);
    NoDupConcat(Flatten(cs[..i + 1]), Flatten(cs[i + 1..]));
    NoDupConcat(Flatten(cs[..i]), cs[i]);
  }

  lemma {:induction false} PrefixMono(cs: seq<seq<nat>>, i: nat, j: nat)
    requires i <= j <= |cs|
    ensures ChunkPrefix(cs, i) <= ChunkPrefix(cs, j)
    decreases j - i
  {
    if i < j {
      NextPrefix(cs, i);
      PrefixMono(cs, i + 1, j);
    }
  }

  /** The accumulator after i chunks, none of the intersections so far being long enough. */
  ghost predicate Accumulated(r: Rates, cs: seq<seq<nat>>, all: set<nat>, acc: SetInfo, i: nat) {
    && i <= |cs| && acc.Honest(r) && acc.transactions == all * ChunkPrefix(cs, i)
    && forall k :: 0 <= k <= i ==> TooShort(r, all, all * ChunkPrefix(cs, k))
  }

  lemma NothingAccumulated(r: Rates, cs: seq<seq<nat>>, all: set<nat>)
    ensures Accumulated(r, cs, all, NoSet, 0)
  {
    assert cs[..0] == [];
    SumEmpty(r);
  }

  /** acc after also taking what chunk i shares with all. */
  function Grown(r: Rates, acc: SetInfo, toAdd: set<nat>): SetInfo {
    SetInfo(acc.transactions + toAdd, acc.feerate.Add(Sum(r, toAdd)))
  }

  lemma GrownIsIntersection(r: Rates, cs: seq<seq<nat>>, all: set<nat>, acc: SetInfo, i: nat)
    requires i < |cs| && NoDup(Flatten(cs)) && acc.Honest(r) && acc.transactions == all * ChunkPrefix(cs, i)
    ensures var next := Grown(r, acc, Elems(cs[i]) * all);
      next.Honest(r) && next.transactions == all * ChunkPrefix(cs, i + 1)
  {
    NextPrefix(cs, i);
    SumUnion(r, acc.transactions, Elems(cs[i]) * all);
  }

  lemma NextIntersection(r: Rates, cs: seq<seq<nat>>, all: set<nat>, acc: SetInfo, i: nat)
    requires i < |cs| && Accumulated(r, cs, all, acc, i) && NoDup(Flatten(cs))
    ensures var toAdd := Elems(cs[i]) * all;
      var next := Grown(r, acc, toAdd);
      && all * ChunkPrefix(cs, i + 1) == next.transactions && next.Honest(r)
      && (toAdd == {} ==> Accumulated(r, cs, all, acc, i + 1))
      && (TooShort(r, all, next.transactions) ==> Accumulated(r, cs, all, next, i + 1))
  {
    GrownIsIntersection(r, cs, all, acc, i);
    var toAdd := Elems(cs[i]) * all;
    if toAdd == {} {
      assert acc.transactions + toAdd == acc.transactions;
    }
  }

  lemma StopAt(r: Rates, cs: seq<seq<nat>>, all: set<nat>, i: nat)
    requires i < |cs|
    requires forall k :: 0 <= k <= i ==> TooShort(r, all, all * ChunkPrefix(cs, k))
    requires all * ChunkPrefix(cs, i + 1) != {}
    requires !Sum(r, all * ChunkPrefix(cs, i + 1)).Lower(Sum(r, all))
    ensures IsShortestIntersection(r, cs, all, all * ChunkPrefix(cs, i + 1))
  {
    var ret := all * ChunkPrefix(cs, i + 1);
    forall k | 0 <= k <= |cs|
      ensures ret <= ChunkPrefix(cs, k)
           || (ret * ChunkPrefix(cs, k) == all * ChunkPrefix(cs, k) && TooShort(r, all, all * ChunkPrefix(cs, k)))
    {
      if k <= i {
        PrefixMono(cs, k, i + 1);
      } else {
        PrefixMono(cs, i + 1, k);
      }
    }
  }

  lemma StopWithAll(r: Rates, cs: seq<seq<nat>>, all: set<nat>, i: nat)
    requires i <= |cs|
    requires forall k :: 0 <= k <= i ==> TooShort(r, all, all * ChunkPrefix(cs, k))
    requires i == |cs| || all <= ChunkPrefix(cs, i + 1)
    ensures IsShortestIntersection(r, cs, all, all)
  {
    forall k | 0 <= k <= |cs|
      ensures all <= ChunkPrefix(cs, k) || TooShort(r, all, all * ChunkPrefix(cs, k))
    {
      if k > i {
        PrefixMono(cs, i + 1, k);
      }
    }
  }

  /**
   The guarantee of IntersectPrefixes: if `all` has a feerate not below that of any chunk, moving
   the shortest intersection to the front is safe.
   */
  lemma IntersectionIsSafe(r: Rates, l: seq<nat>, cs: seq<seq<nat>>, all: set<nat>, ret: set<nat>)
    requires NoDup(l) && AllSized(r, l) && IsChunking(r, l, cs) && all <= Elems(l) && all != {}
    requires IsShortestIntersection(r, cs, all, ret)
    requires forall i :: 0 <= i < |cs| ==> !SeqSum(r, cs[i]).Higher(Sum(r, all))
    ensures SafeFront(r, cs, Sum(r, all), ret)
  {
    var c := Sum(r, all);
    SizedElems(r, l);
    SumSize(r, all);
    HigherIsAbove(Sum(r, ret), c);
    forall k | 0 <= k <= |cs|
      ensures ret <= ChunkPrefix(cs, k) || Value(Sum(r, ret - ChunkPrefix(cs, k)), SlopeOf(c)) >= 0
    {
      var p := ChunkPrefix(cs, k);
      if !(ret <= p) {
        SumSplit(r, ret, p);
        ValueAdd(Sum(r, ret * p), Sum(r, ret - p), SlopeOf(c));
        if ret * p == {} {
          SumEmpty(r);
        } else {
          HigherIsAbove(Sum(r, ret * p), c);
        }
      }
    }
  }

  lemma SizedElems(r: Rates, l: seq<nat>)
    requires AllSized(r, l)
    ensures Sized(r, Elems(l))
  {
    forall x <- Elems(l) ensures x < |r| && r[x].size > 0 {
      var i :| 0 <= i < |l| && l[i] == x;
    }
  }

  /** An intersection of topologically valid sets with prefixes is topologically valid. */
  lemma IntersectionClosed(g: Graph, l: seq<nat>, todo: set<nat>, cs: seq<seq<nat>>, all: set<nat>, ret: set<nat>)
    requires IsLinearization(g, l, todo) && Flatten(cs) == l && ClosedIn(g, todo, all)
    requires IsShortestIntersection(g.Rates(), cs, all, ret)
    ensures ClosedIn(g, todo, ret)
  {
    if ret != all {
      var j :| 0 <= j <= |cs| && ret == all * ChunkPrefix(cs, j);
      FlattenPrefix(cs, j);
      PrefixClosed(g, Flatten(cs[..j]), Flatten(cs[j..]), todo);
      ClosedIntersection(g, todo, all, ChunkPrefix(cs, j));
    }
  }
}
