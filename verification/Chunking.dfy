/**
 Feerate chunks of a linearization and its feerate diagram.

 `Chunks` is the absorb-the-previous-chunk algorithm of ChunkLinearization
 (src/cluster_linearize.h:369-386) on sequences of positions. `IsChunking` says what a chunking
 is without mentioning the algorithm: segments whose feerate strictly exceeds that of each of
 their proper prefixes, in non-increasing feerate order. There is exactly one.
 */
module Chunking {
  import opened FeeFracs
  import opened TxSets

  ghost predicate AllSized(r: Rates, l: seq<nat>) {
    forall i :: 0 <= i < |l| ==> l[i] < |r| && r[l[i]].size > 0
  }

  lemma {:induction false} SeqSumSize(r: Rates, l: seq<nat>)
    requires AllSized(r, l)
    ensures SeqSum(r, l).size >= |l|
  {
    if l != [] {
      SeqSumSize(r, l[1..]);
    }
  }

  function Flatten(cs: seq<seq<nat>>): seq<nat> {
    if cs == [] then [] else cs[0] + Flatten(cs[1..])
  }

  lemma {:induction false} FlattenConcat(a: seq<seq<nat>>, b: seq<seq<nat>>)
    ensures Flatten(a + b) == Flatten(a) + Flatten(b)
  {
    if a == [] {
      assert a + b == b;
    } else {
      assert (a + b)[1..] == a[1..] + b;
      FlattenConcat(a[1..], b);
    }
  }

  lemma FlattenSnoc(a: seq<seq<nat>>, x: seq<nat>)
    ensures Flatten(a + [x]) == Flatten(a) + x
  {
    FlattenConcat(a, [x]);
    assert Flatten([x]) == x + Flatten([]);
  }

  // ---------------------------------------------------------------- what a chunking is

  /** Every proper prefix of the chunk has a strictly lower feerate than the chunk. */
  ghost predicate Solid(r: Rates, c: seq<nat>) {
    && c != []
    && forall k :: 0 < k < |c| ==> SeqSum(r, c[..k]).Lower(SeqSum(r, c))
  }

  ghost predicate AllSolid(r: Rates, cs: seq<seq<nat>>) {
    forall i :: 0 <= i < |cs| ==> Solid(r, cs[i])
  }

  ghost predicate NonIncreasing(r: Rates, cs: seq<seq<nat>>) {
    forall i, j :: 0 <= i < j < |cs| ==> !SeqSum(r, cs[j]).Higher(SeqSum(r, cs[i]))
  }

  ghost predicate IsChunking(r: Rates, l: seq<nat>, cs: seq<seq<nat>>) {
    Flatten(cs) == l && AllSolid(r, cs) && NonIncreasing(r, cs)
  }

  // ---------------------------------------------------------------- the algorithm

  /** Push chunk x, first absorbing final chunks of strictly lower feerate. */
  function Absorb(r: Rates, cs: seq<seq<nat>>, x: seq<nat>): seq<seq<nat>> {
    if cs == [] || !SeqSum(r, x).Higher(SeqSum(r, cs[|cs| - 1])) then cs + [x]
    else Absorb(r, cs[..|cs| - 1], cs[|cs| - 1] + x)
  }

  function Chunks(r: Rates, l: seq<nat>): seq<seq<nat>> {
    if l == [] then [] else Absorb(r, Chunks(r, l[..|l| - 1]), [l[|l| - 1]])
  }

  lemma AllSizedParts(r: Rates, a: seq<nat>, b: seq<nat>)
    ensures AllSized(r, a + b) <==> AllSized(r, a) && AllSized(r, b)
  {
    var c := a + b;
    if AllSized(r, c) {
      forall i | 0 <= i < |a| ensures a[i] < |r| && r[a[i]].size > 0 { assert c[i] == a[i]; }
      forall i | 0 <= i < |b| ensures b[i] < |r| && r[b[i]].size > 0 { assert c[|a| + i] == b[i]; }
    }
  }

  /** Joining two solid chunks, the second of higher feerate, gives a solid chunk. */
  lemma SolidMerge(r: Rates, a: seq<nat>, b: seq<nat>)
    requires AllSized(r, a) && AllSized(r, b) && Solid(r, a) && Solid(r, b)
    requires SeqSum(r, b).Higher(SeqSum(r, a))
    ensures Solid(r, a + b)
    ensures SeqSum(r, b).Higher(SeqSum(r, a + b)) && SeqSum(r, a + b).Higher(SeqSum(r, a))
  {
    SeqSumConcat(r, a, b);
    SeqSumSize(r, a);
    SeqSumSize(r, b);
    SumBetween(SeqSum(r, a), SeqSum(r, b));
    forall k | 0 < k < |a + b| ensures SeqSum(r, (a + b)[..k]).Lower(SeqSum(r, a + b)) {
      SolidMergePrefix(r, a, b, k);
    }
  }

  lemma SolidMergePrefix(r: Rates, a: seq<nat>, b: seq<nat>, k: nat)
    requires AllSized(r, a) && AllSized(r, b) && Solid(r, a) && Solid(r, b)
    requires SeqSum(r, b).Higher(SeqSum(r, a)) && 0 < k < |a + b|
    requires SeqSum(r, a + b) == SeqSum(r, a).Add(SeqSum(r, b))
    requires SeqSum(r, a).Lower(SeqSum(r, a + b))
    ensures SeqSum(r, (a + b)[..k]).Lower(SeqSum(r, a + b))
  {
    SeqSumSize(r, a);
    SeqSumSize(r, b);
    if k < |a| {
      assert (a + b)[..k] == a[..k];
      AllSizedParts(r, a[..k], a[k..]);
      assert a == a[..k] + a[k..];
      SeqSumSize(r, a[..k]);
      LowerTrans(SeqSum(r, a[..k]), SeqSum(r, a), SeqSum(r, a + b));
    } else if k == |a| {
      assert (a + b)[..k] == a;
    } else {
      var b1, b2 := b[..k - |a|], b[k - |a|..];
      assert (a + b)[..k] == a + b1;
      assert b == b1 + b2;
      SeqSumConcat(r, a, b1);
      SeqSumConcat(r, b1, b2);
      AllSizedParts(r, b1, b2);
      SeqSumSize(r, b1);
      SeqSumSize(r, b2);
      CutTail(SeqSum(r, a), SeqSum(r, b1), SeqSum(r, b2));
    }
  }

  lemma {:induction false} AbsorbCorrect(r: Rates, cs: seq<seq<nat>>, x: seq<nat>)
    requires AllSized(r, Flatten(cs)) && AllSized(r, x)
    requires AllSolid(r, cs) && NonIncreasing(r, cs) && Solid(r, x)
    ensures IsChunking(r, Flatten(cs) + x, Absorb(r, cs, x))
  {
    if cs == [] {
      FlattenSnoc(cs, x);
    } else {
      var init, last := cs[..|cs| - 1], cs[|cs| - 1];
      assert cs == init + [last];
      FlattenSnoc(init, last);
      AllSizedParts(r, Flatten(init), last);
      if SeqSum(r, x).Higher(SeqSum(r, last)) {
        SolidMerge(r, last, x);
        AllSizedParts(r, last, x);
        AbsorbCorrect(r, init, last + x);
        assert Flatten(init) + (last + x) == Flatten(cs) + x;
      } else {
        FlattenSnoc(cs, x);
        forall i | 0 <= i < |cs| ensures !SeqSum(r, x).Higher(SeqSum(r, cs[i])) {
          if i < |cs| - 1 {
            ChunkSized(r, cs, i);
            ChunkSized(r, cs, |cs| - 1);
            SeqSumSize(r, x);
            HigherTrans(SeqSum(r, cs[i]), SeqSum(r, last), SeqSum(r, x));
          }
        }
      }
    }
  }

  /** Members of a flattened list are sized, and nonempty ones have positive size. */
  lemma {:induction false} ChunkSized(r: Rates, cs: seq<seq<nat>>, i: nat)
    requires i < |cs| && AllSized(r, Flatten(cs))
    ensures AllSized(r, cs[i])
    ensures cs[i] != [] ==> SeqSum(r, cs[i]).size > 0
  {
    AllSizedParts(r, cs[0], Flatten(cs[1..]));
    if i > 0 {
      ChunkSized(r, cs[1..], i - 1);
    }
    SeqSumSize(r, cs[i]);
  }

  lemma {:induction false} ChunksCorrect(r: Rates, l: seq<nat>)
    requires AllSized(r, l)
    ensures IsChunking(r, l, Chunks(r, l))
  {
    if l != [] {
      var init, last := l[..|l| - 1], [l[|l| - 1]];
      assert l == init + last;
      AllSizedParts(r, init, last);
      ChunksCorrect(r, init);
      AbsorbCorrect(r, Chunks(r, init), last);
    }
  }

  /** A prefix of a chunked sequence never beats the first chunk. */
  lemma {:induction false} PrefixBelow(r: Rates, cs: seq<seq<nat>>, k: nat, s: Slope)
    requires AllSized(r, Flatten(cs)) && AllSolid(r, cs) && k <= |Flatten(cs)|
    requires forall i :: 0 <= i < |cs| ==> Value(SeqSum(r, cs[i]), s) <= 0
    ensures Value(SeqSum(r, Flatten(cs)[..k]), s) <= 0
  {
    if cs == [] {
    } else {
      AllSizedParts(r, cs[0], Flatten(cs[1..]));
      var c := cs[0];
      if k < |c| {
        assert Flatten(cs)[..k] == c[..k];
        if k > 0 {
          assert c == c[..k] + c[k..];
          AllSizedParts(r, c[..k], c[k..]);
          SeqSumSize(r, c[..k]);
          SeqSumSize(r, c);
          HigherIsAbove(SeqSum(r, c[..k]), SeqSum(r, c));
          BelowStays(SeqSum(r, c), SeqSum(r, c[..k]), s);
        }
      } else {
        assert Flatten(cs)[..k] == c + Flatten(cs[1..])[..k - |c|];
        SeqSumConcat(r, c, Flatten(cs[1..])[..k - |c|]);
        PrefixBelow(r, cs[1..], k - |c|, s);
        ValueAdd(SeqSum(r, c), SeqSum(r, Flatten(cs[1..])[..k - |c|]), s);
      }
    }
  }

  lemma FirstChunkMaximal(r: Rates, cs: seq<seq<nat>>, ds: seq<seq<nat>>)
    requires cs != [] && ds != [] && Flatten(cs) == Flatten(ds) && AllSized(r, Flatten(cs))
    requires AllSolid(r, cs) && NonIncreasing(r, cs) && AllSolid(r, ds)
    ensures |ds[0]| <= |cs[0]|
  {
    var c, d := cs[0], ds[0];
    if |c| < |d| {
      // c is a proper prefix of d, so d has a strictly higher feerate; but what d adds to c
      // is a prefix of chunks that do not exceed c.
      var l := Flatten(cs);
      assert l[..|c|] == c && l[..|d|] == d;
      assert d[..|c|] == c;
      ChunkSized(r, cs, 0);
      ChunkSized(r, ds, 0);
      var s := SlopeOf(SeqSum(r, c));
      AllSizedParts(r, c, Flatten(cs[1..]));
      var rest := Flatten(cs[1..])[..|d| - |c|];
      assert d == c + rest;
      forall i | 0 <= i < |cs[1..]| ensures Value(SeqSum(r, cs[1..][i]), s) <= 0 {
        HigherIsAbove(SeqSum(r, cs[i + 1]), SeqSum(r, c));
      }
      PrefixBelow(r, cs[1..], |d| - |c|, s);
      SeqSumConcat(r, c, rest);
      ValueAdd(SeqSum(r, c), SeqSum(r, rest), s);
      HigherIsAbove(SeqSum(r, d), SeqSum(r, c));
      assert false;
    }
  }

  /** A sequence has exactly one chunking. */
  lemma {:induction false} ChunkingUnique(r: Rates, cs: seq<seq<nat>>, ds: seq<seq<nat>>)
    requires Flatten(cs) == Flatten(ds) && AllSized(r, Flatten(cs))
    requires AllSolid(r, cs) && NonIncreasing(r, cs)
    requires AllSolid(r, ds) && NonIncreasing(r, ds)
    ensures cs == ds
  {
    if cs == [] {
      if ds != [] { assert false; }
    } else if ds == [] {
      assert false;
    } else {
      FirstChunkMaximal(r, cs, ds);
      FirstChunkMaximal(r, ds, cs);
      var l := Flatten(cs);
      assert cs[0] == l[..|cs[0]|] && ds[0] == l[..|ds[0]|];
      assert Flatten(cs[1..]) == l[|cs[0]|..] && Flatten(ds[1..]) == l[|ds[0]|..];
      AllSizedParts(r, cs[0], Flatten(cs[1..]));
      ChunkingUnique(r, cs[1..], ds[1..]);
      assert cs == [cs[0]] + cs[1..] && ds == [ds[0]] + ds[1..];
    }
  }

  lemma ChunksIffIsChunking(r: Rates, l: seq<nat>, cs: seq<seq<nat>>)
    requires AllSized(r, l)
    ensures IsChunking(r, l, cs) <==> cs == Chunks(r, l)
  {
    ChunksCorrect(r, l);
    if IsChunking(r, l, cs) {
      ChunkingUnique(r, cs, Chunks(r, l));
    }
  }

  /** Dropping the first chunk leaves the other chunks as the chunking of what remains. */
  lemma ChunksTail(r: Rates, l: seq<nat>)
    requires AllSized(r, l) && l != []
    ensures Chunks(r, l) != [] && |Chunks(r, l)[0]| <= |l|
    ensures l[..|Chunks(r, l)[0]|] == Chunks(r, l)[0]
    ensures Chunks(r, l[|Chunks(r, l)[0]|..]) == Chunks(r, l)[1..]
  {
    ChunksCorrect(r, l);
    var cs := Chunks(r, l);
    assert l == cs[0] + Flatten(cs[1..]);
    AllSizedParts(r, cs[0], Flatten(cs[1..]));
    assert l[|cs[0]|..] == Flatten(cs[1..]);
    assert IsChunking(r, l[|cs[0]|..], cs[1..]);
    ChunksIffIsChunking(r, l[|cs[0]|..], cs[1..]);
  }
}
