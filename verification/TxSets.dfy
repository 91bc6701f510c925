/**
 Sets and sequences of transaction positions, and the aggregate fee and size of each.

 A transaction is a `ClusterIndex` (a natural number below the position range), a `Rates` value
 gives the fee and size stored at every position, and a bit set of positions is a `set<nat>`
 visited in ascending order (src/util/bitset.h).
 */
module TxSets {
  import opened FeeFracs

  type ClusterIndex = nat

  type Rates = seq<FeeFrac>

  function At(r: Rates, i: nat): FeeFrac {
    if i < |r| then r[i] else Empty
  }

  // ---------------------------------------------------------------- sets

  /** Sum over the members of s below n, in ascending order. */
  function SumTo(r: Rates, s: set<nat>, n: nat): FeeFrac
    requires n <= |r|
  {
    if n == 0 then Empty
    else if n - 1 in s then SumTo(r, s, n - 1).Add(r[n - 1])
    else SumTo(r, s, n - 1)
  }

  /** DepGraph::FeeRate(elems): combined fee and size of a set. */
  function Sum(r: Rates, s: set<nat>): FeeFrac {
    SumTo(r, s, |r|)
  }

  /** Every member of s is a real position and has a positive size. */
  ghost predicate Sized(r: Rates, s: set<nat>) {
    forall i <- s :: i < |r| && r[i].size > 0
  }

  lemma {:induction false} SumToUnion(r: Rates, a: set<nat>, b: set<nat>, n: nat)
    requires n <= |r| && a !! b
    ensures SumTo(r, a + b, n) == SumTo(r, a, n).Add(SumTo(r, b, n))
  {
    if n == 0 {
      NothingToSum(r, a, b, a + b);
    } else {
      SumToUnion(r, a, b, n - 1);
    }
  }

  lemma NothingToSum(r: Rates, a: set<nat>, b: set<nat>, c: set<nat>)
    ensures SumTo(r, c, 0) == SumTo(r, a, 0).Add(SumTo(r, b, 0))
  {
    SumToNothing(r, a);
    SumToNothing(r, b);
    SumToNothing(r, c);
  }

  lemma SumToNothing(r: Rates, s: set<nat>)
    ensures SumTo(r, s, 0) == Empty
  {
  }

  lemma SumUnion(r: Rates, a: set<nat>, b: set<nat>)
    requires a !! b
    ensures Sum(r, a + b) == Sum(r, a).Add(Sum(r, b))
  {
    SumToUnion(r, a, b, |r|);
  }

  lemma SumSplit(r: Rates, a: set<nat>, b: set<nat>)
    ensures Sum(r, a) == Sum(r, a * b).Add(Sum(r, a - b))
  {
    assert a == (a * b) + (a - b);
    SumUnion(r, a * b, a - b);
  }

  lemma {:induction n} SumToEmpty(r: Rates, n: nat)
    requires n <= |r|
    ensures SumTo(r, {}, n) == Empty
  {
  }

  lemma SumEmpty(r: Rates)
    ensures Sum(r, {}) == Empty
  {
    SumToEmpty(r, |r|);
  }

  lemma {:induction n} SumToSingle(r: Rates, i: nat, n: nat)
    requires i < |r| && n <= |r|
    ensures SumTo(r, {i}, n) == if i < n then r[i] else Empty
  {
  }

  lemma SumSingle(r: Rates, i: nat)
    requires i < |r|
    ensures Sum(r, {i}) == r[i]
  {
    SumToSingle(r, i, |r|);
  }

  lemma {:induction n} SumToSize(r: Rates, s: set<nat>, n: nat)
    requires n <= |r| && Sized(r, s)
    ensures SumTo(r, s, n).size >= 0
    ensures forall i <- s :: i < n ==> SumTo(r, s, n).size >= r[i].size
  {
  }

  lemma SumSize(r: Rates, s: set<nat>)
    requires Sized(r, s)
    ensures Sum(r, s).size >= 0
    ensures forall i <- s :: Sum(r, s).size >= r[i].size
    ensures s != {} <==> Sum(r, s).size > 0
    ensures s == {} ==> Sum(r, s) == Empty
  {
    SumToSize(r, s, |r|);
    SumEmpty(r);
    if s != {} {
      var i :| i in s;
    }
  }

  lemma SumSizeMono(r: Rates, a: set<nat>, b: set<nat>)
    requires Sized(r, b) && a <= b
    ensures Sum(r, a).size <= Sum(r, b).size
    ensures a != b ==> Sum(r, a).size < Sum(r, b).size
  {
    SumSplit(r, b, a);
    assert b * a == a;
    SumSize(r, b - a);
  }

  /** If no member lies above the line, neither does the sum. */
  lemma {:induction false} SumToBelow(r: Rates, a: set<nat>, s: Slope, n: nat)
    requires n <= |r|
    requires forall i <- a :: i < |r| ==> Value(r[i], s) <= 0
    ensures Value(SumTo(r, a, n), s) <= 0
    ensures forall i <- a :: i < n ==> Value(SumTo(r, a, n), s) <= Value(r[i], s)
  {
    if n > 0 {
      SumToBelow(r, a, s, n - 1);
      if n - 1 in a { ValueAdd(SumTo(r, a, n - 1), r[n - 1], s); }
    }
  }

  lemma SumBelow(r: Rates, a: set<nat>, s: Slope)
    requires forall i <- a :: i < |r| ==> Value(r[i], s) <= 0
    ensures Value(Sum(r, a), s) <= 0
    ensures forall i <- a :: i < |r| ==> Value(Sum(r, a), s) <= Value(r[i], s)
  {
    SumToBelow(r, a, s, |r|);
  }

  lemma {:induction false} SumToAbove(r: Rates, a: set<nat>, s: Slope, n: nat)
    requires n <= |r|
    requires forall i <- a :: i < |r| ==> Value(r[i], s) >= 0
    ensures Value(SumTo(r, a, n), s) >= 0
    ensures forall i <- a :: i < n ==> Value(SumTo(r, a, n), s) >= Value(r[i], s)
  {
    if n > 0 {
      SumToAbove(r, a, s, n - 1);
      if n - 1 in a { ValueAdd(SumTo(r, a, n - 1), r[n - 1], s); }
    }
  }

  lemma SumAbove(r: Rates, a: set<nat>, s: Slope)
    requires forall i <- a :: i < |r| ==> Value(r[i], s) >= 0
    ensures Value(Sum(r, a), s) >= 0
    ensures forall i <- a :: i < |r| ==> Value(Sum(r, a), s) >= Value(r[i], s)
  {
    SumToAbove(r, a, s, |r|);
  }

  // ---------------------------------------------------------------- sequences

  function Elems(l: seq<nat>): set<nat> {
    set x | x in l
  }

  ghost predicate NoDup(l: seq<nat>) {
    forall i, j :: 0 <= i < j < |l| ==> l[i] != l[j]
  }

  function SeqSum(r: Rates, l: seq<nat>): FeeFrac {
    if l == [] then Empty else At(r, l[0]).Add(SeqSum(r, l[1..]))
  }

  lemma ElemsConcat(a: seq<nat>, b: seq<nat>)
    ensures Elems(a + b) == Elems(a) + Elems(b)
  {
  }

  lemma NoDupConcat(a: seq<nat>, b: seq<nat>)
    ensures NoDup(a + b) <==> NoDup(a) && NoDup(b) && Elems(a) !! Elems(b)
  {
    var c := a + b;
    if NoDup(c) {
      assert NoDup(a) by {
        forall i, j | 0 <= i < j < |a| ensures a[i] != a[j] { assert c[i] != c[j]; }
      }
      assert NoDup(b) by {
        forall i, j | 0 <= i < j < |b| ensures b[i] != b[j] { assert c[|a| + i] != c[|a| + j]; }
      }
      forall i, j | 0 <= i < |a| && 0 <= j < |b| ensures a[i] != b[j] {
        assert c[i] != c[|a| + j];
      }
    }
    if NoDup(a) && NoDup(b) && Elems(a) !! Elems(b) {
      forall i, j | 0 <= i < j < |c| ensures c[i] != c[j] {
        if i < |a| <= j {
          assert c[i] in Elems(a) && c[j] in Elems(b);
        }
      }
    }
  }

  lemma {:induction false} SeqSumConcat(r: Rates, a: seq<nat>, b: seq<nat>)
    ensures SeqSum(r, a + b) == SeqSum(r, a).Add(SeqSum(r, b))
  {
    if a == [] {
      assert a + b == b;
    } else {
      assert (a + b)[1..] == a[1..] + b;
      SeqSumConcat(r, a[1..], b);
    }
  }

  lemma {:induction false} SeqSumIsSum(r: Rates, l: seq<nat>)
    requires NoDup(l) && forall i :: 0 <= i < |l| ==> l[i] < |r|
    ensures SeqSum(r, l) == Sum(r, Elems(l))
  {
    if l == [] {
      assert Elems(l) == {};
      SumEmpty(r);
    } else {
      assert l == [l[0]] + l[1..];
      NoDupConcat([l[0]], l[1..]);
      ElemsConcat([l[0]], l[1..]);
      SeqSumIsSum(r, l[1..]);
      SumSingle(r, l[0]);
      assert Elems([l[0]]) == {l[0]};
      SumUnion(r, {l[0]}, Elems(l[1..]));
    }
  }

  lemma {:induction false} ElemsCard(l: seq<nat>)
    requires NoDup(l)
    ensures |Elems(l)| == |l|
  {
    if l == [] {
    } else {
      assert l == [l[0]] + l[1..];
      NoDupConcat([l[0]], l[1..]);
      ElemsConcat([l[0]], l[1..]);
      ElemsCard(l[1..]);
      assert Elems([l[0]]) == {l[0]};
    }
  }

  /** What remains of a sequence when only the members of s are kept. */
  function Filter(l: seq<nat>, s: set<nat>): (f: seq<nat>)
    ensures |f| <= |l|
  {
    if l == [] then []
    else if l[0] in s then [l[0]] + Filter(l[1..], s)
    else Filter(l[1..], s)
  }

  lemma {:induction false} FilterConcat(a: seq<nat>, b: seq<nat>, s: set<nat>)
    ensures Filter(a + b, s) == Filter(a, s) + Filter(b, s)
  {
    if a == [] {
      assert a + b == b;
    } else {
      assert (a + b)[1..] == a[1..] + b;
      FilterConcat(a[1..], b, s);
    }
  }

  lemma {:induction false} FilterProps(l: seq<nat>, s: set<nat>)
    ensures Elems(Filter(l, s)) == Elems(l) * s
    ensures NoDup(l) ==> NoDup(Filter(l, s))
    ensures Elems(l) <= s ==> Filter(l, s) == l
    ensures Elems(l) !! s ==> Filter(l, s) == []
  {
    if l != [] {
      FilterProps(l[1..], s);
      assert l == [l[0]] + l[1..];
      ElemsConcat([l[0]], l[1..]);
      assert Elems([l[0]]) == {l[0]};
      NoDupConcat([l[0]], l[1..]);
      if l[0] in s {
        NoDupConcat([l[0]], Filter(l[1..], s));
        ElemsConcat([l[0]], Filter(l[1..], s));
      }
    }
  }

  lemma {:induction false} FilterFilter(l: seq<nat>, s: set<nat>, t: set<nat>)
    ensures Filter(Filter(l, s), t) == Filter(l, s * t)
  {
    if l != [] {
      FilterFilter(l[1..], s, t);
      if l[0] in s {
        assert Filter(l, s)[1..] == Filter(l[1..], s);
      }
    }
  }

  lemma SizedSeq(r: Rates, l: seq<nat>)
    requires Sized(r, Elems(l)) && NoDup(l)
    ensures SeqSum(r, l) == Sum(r, Elems(l))
    ensures SeqSum(r, l).size >= 0
    ensures l != [] <==> SeqSum(r, l).size > 0
  {
    forall i | 0 <= i < |l| ensures l[i] < |r| { assert l[i] in Elems(l); }
    SeqSumIsSum(r, l);
    SumSize(r, Elems(l));
    if l != [] { assert l[0] in Elems(l); }
  }

  // ---------------------------------------------------------------- sets with their feerate

  /** A set of transactions together with its aggregate feerate (SetInfo). */
  datatype SetInfo = SetInfo(transactions: set<nat>, feerate: FeeFrac) {

    /** operator|=, for disjoint sets. */
    function Union(o: SetInfo): SetInfo {
      SetInfo(transactions + o.transactions, feerate.Add(o.feerate))
    }

    /** Add transactions that may already be present. */
    function AddSet(r: Rates, txn: set<nat>): SetInfo {
      SetInfo(transactions + txn, feerate.Add(Sum(r, txn - transactions)))
    }

    /** The recorded feerate is that of the recorded transactions. */
    ghost predicate Honest(r: Rates) {
      feerate == Sum(r, transactions)
    }
  }

  const NoSet := SetInfo({}, Empty)

  lemma AddSetHonest(a: SetInfo, r: Rates, txn: set<nat>)
    requires a.Honest(r)
    ensures a.AddSet(r, txn).Honest(r)
  {
    assert a.transactions + txn == a.transactions + (txn - a.transactions);
    SumUnion(r, a.transactions, txn - a.transactions);
  }
}
