/**
 PostLinearize on its linked lists (src/cluster_linearize.h:1112-1295).

 Groups are singly linked lists of transactions, from back to front, and the groups themselves
 form a circular list through a sentinel. Transaction t lives in entries[t + 1].
 */
module PostLinearizing {
  import opened Reversal
  import opened FeeFracs
  import opened TxSets
  import opened Chunking
  import opened Diagrams
  import opened DepGraphs
  import opened Linearizations
  import opened Regrouping
  import opened Trees

  const SENTINEL: nat := 0
  const NO_PREV_TX: nat := 0

  datatype TxEntry = TxEntry(prevTx: nat, firstTx: nat, prevGroup: nat, group: set<nat>, deps: set<nat>, feerate: FeeFrac)

  // ---------------------------------------------------------------- what the lists represent

  /** The fields kept in the last transaction of group c. */
  ghost predicate TailAt(x: TxEntry, h: Graph, c: seq<nat>)
    requires c != []
  {
    && x.firstTx == c[0] + 1 && x.group == Elems(c)
    && x.deps == AncOf(h, Elems(c)) && x.feerate == SeqSum(h.Rates(), c)
  }

  /** Transaction k of the group points to the one before it. */
  ghost predicate ChainAt(e: seq<TxEntry>, c: seq<nat>, k: nat)
    requires k < |c| && c[k] + 1 < |e|
  {
    e[c[k] + 1].prevTx == if k == 0 then NO_PREV_TX else c[k - 1] + 1
  }

  ghost predicate GroupAt(e: seq<TxEntry>, h: Graph, c: seq<nat>) {
    && c != []
    && (forall k :: 0 <= k < |c| ==> c[k] + 1 < |e|)
    && (forall k: nat {:trigger ChainAt(e, c, k)} :: k < |c| ==> ChainAt(e, c, k))
    && TailAt(e[Last(c) + 1], h, c)
  }

  function TailOf(c: seq<nat>): nat {
    if c == [] then SENTINEL else Last(c) + 1
  }

  function Tails(gs: seq<seq<nat>>): seq<nat> {
    seq(|gs|, k requires 0 <= k < |gs| => TailOf(gs[k]))
  }

  /** Once around the list of groups, from sentinel to sentinel. */
  function RingOf(gs: seq<seq<nat>>): seq<nat> {
    [SENTINEL] + Tails(gs) + [SENTINEL]
  }

  function Links(e: seq<TxEntry>): seq<nat> {
    seq(|e|, k requires 0 <= k < |e| => e[k].prevGroup)
  }

  /** Every member of the ring links to the one before it. */
  ghost predicate Ring(links: seq<nat>, ring: seq<nat>) {
    && (forall k :: 0 <= k < |ring| ==> ring[k] < |links|)
    && (forall k :: 0 < k < |ring| ==> links[ring[k]] == ring[k - 1])
  }

  ghost predicate AllAt(e: seq<TxEntry>, h: Graph, gs: seq<seq<nat>>) {
    forall k :: 0 <= k < |gs| ==> GroupAt(e, h, gs[k])
  }

  ghost predicate Represents(e: seq<TxEntry>, h: Graph, gs: seq<seq<nat>>) {
    |e| > 0 && e[SENTINEL].feerate == Empty && Ring(Links(e), RingOf(gs)) && AllAt(e, h, gs)
  }

  /** No transaction is in two groups, or twice in one. */
  ghost predicate Distinct(gs: seq<seq<nat>>) {
    && (forall i :: 0 <= i < |gs| ==> NoDup(gs[i]))
    && (forall i, j :: 0 <= i < j < |gs| ==> Elems(gs[i]) !! Elems(gs[j]))
  }

  lemma {:induction false} FlattenMember(gs: seq<seq<nat>>, i: nat)
    requires i < |gs|
    ensures Elems(gs[i]) <= Elems(Flatten(gs))
  {
    ElemsConcat(gs[0], Flatten(gs[1..]));
    if i > 0 {
      FlattenMember(gs[1..], i - 1);
    }
  }

  lemma {:induction false} FlattenDistinct(gs: seq<seq<nat>>)
    requires NoDup(Flatten(gs))
    ensures Distinct(gs)
  {
    if gs != [] {
      NoDupConcat(gs[0], Flatten(gs[1..]));
      FlattenDistinct(gs[1..]);
      forall j | 0 < j < |gs| ensures Elems(gs[0]) !! Elems(gs[j]) && NoDup(gs[j]) {
        FlattenMember(gs[1..], j - 1);
      }
    }
  }

  lemma OtherGroup(gs: seq<seq<nat>>, i: nat, j: nat, x: nat)
    requires Distinct(gs) && i < |gs| && j < |gs| && i != j && x in gs[i]
    ensures forall k :: 0 <= k < |gs[j]| ==> gs[j][k] != x
  {
    assert x in Elems(gs[i]);
    forall k | 0 <= k < |gs[j]| ensures gs[j][k] != x {
      assert gs[j][k] in Elems(gs[j]);
    }
  }

  /** Behind its start, the ring meets every tail once and then the sentinel. */
  lemma RingDistinct(gs: seq<seq<nat>>)
    requires Distinct(gs) && forall i :: 0 <= i < |gs| ==> gs[i] != []
    ensures NoDup(RingOf(gs)[1..])
  {
    var m := RingOf(gs)[1..];
    forall i, j | 0 <= i < j < |m| ensures m[i] != m[j] {
      assert m[i] == Last(gs[i]) + 1;
      if j < |gs| {
        assert m[j] == Last(gs[j]) + 1;
        OtherGroup(gs, i, j, Last(gs[i]));
        assert gs[j][|gs[j]| - 1] == Last(gs[j]);
      }
    }
  }

  /** A group is unaffected by changes elsewhere and by changes to group links. */
  lemma GroupFrame(e: seq<TxEntry>, e': seq<TxEntry>, h: Graph, c: seq<nat>)
    requires GroupAt(e, h, c) && |e'| == |e|
    requires forall k :: 0 <= k < |c| ==> e'[c[k] + 1] == e[c[k] + 1].(prevGroup := e'[c[k] + 1].prevGroup)
    ensures GroupAt(e', h, c)
  {
    var k := |c| - 1;
    assert e'[c[k] + 1] == e[c[k] + 1].(prevGroup := e'[c[k] + 1].prevGroup);
    forall k: nat | k < |c| ensures ChainAt(e', c, k) {
      assert ChainAt(e, c, k);
    }
  }

  // ---------------------------------------------------------------- rings of numbers

  lemma RingAppend(links: seq<nat>, a: seq<nat>, x: nat)
    requires a != [] && Ring(links, a + [SENTINEL]) && x < |links| && x !in a && x != SENTINEL && SENTINEL !in a[1..]
    ensures Ring(links[x := links[SENTINEL]][SENTINEL := x], a + [x] + [SENTINEL])
  {
    var ring, ring' := a + [SENTINEL], a + [x] + [SENTINEL];
    var links' := links[x := links[SENTINEL]][SENTINEL := x];
    assert ring[|a|] == SENTINEL;
    forall k | 0 <= k < |ring'| ensures ring'[k] < |links'| {
      if k < |a| { assert ring'[k] == ring[k]; }
    }
    forall k | 0 < k < |ring'| ensures links'[ring'[k]] == ring'[k - 1] {
      if k < |a| {
        assert ring[k] == a[k] && ring[k - 1] == a[k - 1] && a[k] == a[1..][k - 1];
      } else {
        assert ring[|a|] == SENTINEL && ring[|a| - 1] == a[|a| - 1];
      }
    }
  }

  lemma RingSwap(links: seq<nat>, a: seq<nat>, p: nat, c: nat, b: seq<nat>)
    requires a != [] && b != [] && Ring(links, a + [p, c] + b) && NoDup((a + [p, c] + b)[1..])
    ensures b[0] < |links| && p < |links| && c < |links| && links[p] < |links|
    ensures Ring(links[b[0] := p][p := c][c := links[p]], a + [c, p] + b)
  {
    var ring, ring', n := a + [p, c] + b, a + [c, p] + b, |a|;
    assert ring[n] == p && ring[n + 1] == c && ring[n + 2] == b[0] && ring[n - 1] == a[n - 1];
    var links' := links[b[0] := p][p := c][c := links[p]];
    forall k | 0 <= k < |ring'| ensures ring'[k] < |links'| {
      if k != n && k != n + 1 { assert ring'[k] == ring[k]; }
    }
    forall i, j | 0 < i < j < |ring| ensures ring[i] != ring[j] {
      assert ring[i] == ring[1..][i - 1] && ring[j] == ring[1..][j - 1];
    }
    forall k | 0 < k < |ring'| ensures links'[ring'[k]] == ring'[k - 1] {
      if k < n || k > n + 2 {
        assert ring'[k] == ring[k] && ring'[k - 1] == ring[k - 1];
      }
    }
  }

  lemma RingMerge(links: seq<nat>, a: seq<nat>, p: nat, c: nat, b: seq<nat>)
    requires a != [] && b != [] && Ring(links, a + [p, c] + b) && NoDup((a + [p, c] + b)[1..])
    ensures p < |links| && c < |links|
    ensures Ring(links[c := links[p]], a + [c] + b)
  {
    var ring, ring', n := a + [p, c] + b, a + [c] + b, |a|;
    assert ring[n] == p && ring[n + 1] == c && ring[n + 2] == b[0] && ring[n - 1] == a[n - 1];
    var links' := links[c := links[p]];
    forall k | 0 <= k < |ring'| ensures ring'[k] < |links'| {
      assert ring'[k] == ring[if k < n then k else k + 1];
    }
    forall i, j | 0 < i < j < |ring| ensures ring[i] != ring[j] {
      assert ring[i] == ring[1..][i - 1] && ring[j] == ring[1..][j - 1];
    }
    forall k | 0 < k < |ring'| ensures links'[ring'[k]] == ring'[k - 1] {
      if k < n {
        assert ring'[k] == ring[k] && ring'[k - 1] == ring[k - 1];
      } else if k > n {
        assert ring'[k] == ring[k + 1] && ring'[k - 1] == ring[k];
      }
    }
  }

  // ---------------------------------------------------------------- the three updates

  /** A new group of one at the end of the list. */
  ghost function Appended(e: seq<TxEntry>, h: Graph, x: nat): seq<TxEntry>
    requires 0 < |e| && x + 1 < |e|
  {
    e[x + 1 := TxEntry(NO_PREV_TX, x + 1, e[SENTINEL].prevGroup, {x}, h.Anc(x), At(h.Rates(), x))]
     [SENTINEL := e[SENTINEL].(prevGroup := x + 1)]
  }

  lemma SingleAt(e: seq<TxEntry>, h: Graph, x: nat)
    requires 0 < |e| && x + 1 < |e|
    ensures GroupAt(Appended(e, h, x), h, [x])
  {
    assert Elems([x]) == {x};
    assert ChainAt(Appended(e, h, x), [x], 0);
    assert SeqSum(h.Rates(), [x]) == At(h.Rates(), x).Add(SeqSum(h.Rates(), []));
    assert AncOf(h, {x}) == h.Anc(x);
  }

  lemma AppendedGroups(e: seq<TxEntry>, h: Graph, gs: seq<seq<nat>>, x: nat)
    requires 0 < |e| && AllAt(e, h, gs) && x + 1 < |e| && forall i :: 0 <= i < |gs| ==> x !in gs[i]
    ensures AllAt(Appended(e, h, x), h, gs + [[x]] + [])
  {
    var e', gs' := Appended(e, h, x), gs + [[x]] + [];
    forall k | 0 <= k < |gs'| ensures GroupAt(e', h, gs'[k]) {
      if k < |gs| {
        assert gs'[k] == gs[k];
        GroupFrame(e, e', h, gs[k]);
      } else {
        SingleAt(e, h, x);
      }
    }
  }

  lemma AppendedRepresents(e: seq<TxEntry>, h: Graph, gs: seq<seq<nat>>, x: nat)
    requires Represents(e, h, gs) && x + 1 < |e| && forall i :: 0 <= i < |gs| ==> x !in gs[i]
    ensures Represents(Appended(e, h, x), h, gs + [[x]] + [])
  {
    AppendedGroups(e, h, gs, x);
    AppendedRing(e, gs, x);
    assert Links(Appended(e, h, x)) == Links(e)[x + 1 := Links(e)[SENTINEL]][SENTINEL := x + 1];
  }

  lemma AppendedRing(e: seq<TxEntry>, gs: seq<seq<nat>>, x: nat)
    requires 0 < |e| && Ring(Links(e), RingOf(gs)) && x + 1 < |e|
    requires forall i :: 0 <= i < |gs| ==> gs[i] != [] && x !in gs[i]
    ensures Ring(Links(e)[x + 1 := Links(e)[SENTINEL]][SENTINEL := x + 1], RingOf(gs + [[x]] + []))
  {
    NewTail(gs, x);
    RingAppend(Links(e), [SENTINEL] + Tails(gs), x + 1);
    RingWithLast(gs, x);
  }

  lemma NewTail(gs: seq<seq<nat>>, x: nat)
    requires forall i :: 0 <= i < |gs| ==> gs[i] != [] && x !in gs[i]
    ensures var a := [SENTINEL] + Tails(gs); x + 1 !in a && SENTINEL !in a[1..]
  {
    var a := [SENTINEL] + Tails(gs);
    assert forall k :: 0 <= k < |gs| ==> a[k + 1] == Last(gs[k]) + 1 && Last(gs[k]) in gs[k];
  }

  lemma RingWithLast(gs: seq<seq<nat>>, x: nat)
    ensures RingOf(gs + [[x]] + []) == [SENTINEL] + Tails(gs) + [x + 1] + [SENTINEL]
  {
  }

  ghost function Swapped(e: seq<TxEntry>, prev: nat, cur: nat, next: nat): seq<TxEntry>
    requires prev < |e| && cur < |e| && next < |e|
  {
    var preprev := e[prev].prevGroup;
    var e1 := e[next := e[next].(prevGroup := prev)];
    var e2 := e1[prev := e1[prev].(prevGroup := cur)];
    e2[cur := e2[cur].(prevGroup := preprev)]
  }

  /** The ring around two neighbouring groups. */
  lemma RingAround(before: seq<seq<nat>>, p: seq<nat>, c: seq<nat>, after: seq<seq<nat>>)
    ensures RingOf((before + [p]) + [c] + after) == ([SENTINEL] + Tails(before)) + [TailOf(p), TailOf(c)] + (Tails(after) + [SENTINEL])
    ensures RingOf(before + [c] + ([p] + after)) == ([SENTINEL] + Tails(before)) + [TailOf(c), TailOf(p)] + (Tails(after) + [SENTINEL])
    ensures RingOf(before + [p + c] + after) == ([SENTINEL] + Tails(before)) + [TailOf(p + c)] + (Tails(after) + [SENTINEL])
  {
    assert Tails((before + [p]) + [c] + after) == Tails(before) + [TailOf(p), TailOf(c)] + Tails(after);
    assert Tails(before + [c] + ([p] + after)) == Tails(before) + [TailOf(c), TailOf(p)] + Tails(after);
    assert Tails(before + [p + c] + after) == Tails(before) + [TailOf(p + c)] + Tails(after);
  }

  function NextOf(after: seq<seq<nat>>): nat {
    if after == [] then SENTINEL else TailOf(after[0])
  }

  function PrevOf(before: seq<seq<nat>>): nat {
    if before == [] then SENTINEL else TailOf(before[|before| - 1])
  }

  lemma SwappedRepresents(e: seq<TxEntry>, h: Graph, before: seq<seq<nat>>, p: seq<nat>, c: seq<nat>, after: seq<seq<nat>>)
    requires Represents(e, h, (before + [p]) + [c] + after) && Distinct((before + [p]) + [c] + after)
    ensures TailOf(p) < |e| && TailOf(c) < |e| && NextOf(after) < |e|
    ensures Represents(Swapped(e, TailOf(p), TailOf(c), NextOf(after)), h, before + [c] + ([p] + after))
    ensures e[TailOf(p)].prevGroup == PrevOf(before)
  {
    var gs, gs', n := (before + [p]) + [c] + after, before + [c] + ([p] + after), |before|;
    var a, b := [SENTINEL] + Tails(before), Tails(after) + [SENTINEL];
    RingAround(before, p, c, after);
    RingDistinct(gs);
    RingSwap(Links(e), a, TailOf(p), TailOf(c), b);
    var e' := Swapped(e, TailOf(p), TailOf(c), NextOf(after));
    assert b[0] == NextOf(after);
    assert Links(e') == Links(e)[b[0] := TailOf(p)][TailOf(p) := TailOf(c)][TailOf(c) := Links(e)[TailOf(p)]];
    assert RingOf(gs)[n + 1] == TailOf(p) && RingOf(gs)[n] == PrevOf(before);
    SwappedGroups(e, h, before, p, c, after, e');
  }

  lemma SwappedGroups(e: seq<TxEntry>, h: Graph, before: seq<seq<nat>>, p: seq<nat>, c: seq<nat>, after: seq<seq<nat>>, e': seq<TxEntry>)
    requires AllAt(e, h, (before + [p]) + [c] + after)
    requires |e'| == |e| && forall i :: 0 <= i < |e| ==> e'[i] == e[i].(prevGroup := e'[i].prevGroup)
    ensures AllAt(e', h, before + [c] + ([p] + after))
  {
    var gs, gs', n := (before + [p]) + [c] + after, before + [c] + ([p] + after), |before|;
    forall k | 0 <= k < |gs'| ensures GroupAt(e', h, gs'[k]) {
      var k' := if k == n then n + 1 else if k == n + 1 then n else k;
      assert gs'[k] == gs[k'];
      GroupFrame(e, e', h, gs[k']);
    }
  }

  ghost function Merged(e: seq<TxEntry>, prev: nat, cur: nat, first: nat): seq<TxEntry>
    requires prev < |e| && cur < |e| && first < |e|
  {
    var e1 := e[cur := e[cur].(group := e[cur].group + e[prev].group, deps := e[cur].deps + e[prev].deps, feerate := e[cur].feerate.Add(e[prev].feerate))];
    var e2 := e1[first := e1[first].(prevTx := prev)];
    var e3 := e2[cur := e2[cur].(firstTx := e2[prev].firstTx)];
    e3[cur := e3[cur].(prevGroup := e3[prev].prevGroup)]
  }

  /** What Merged leaves alone and what it changes. */
  lemma MergedEffect(e: seq<TxEntry>, prev: nat, cur: nat, first: nat)
    requires prev < |e| && cur < |e| && first < |e| && prev != cur && prev != first
    ensures var e' := Merged(e, prev, cur, first);
      && |e'| == |e|
      && (forall i :: 0 <= i < |e| && i != cur && i != first ==> e'[i] == e[i])
      && (forall i :: 0 <= i < |e| ==> e'[i].prevTx == if i == first then prev else e[i].prevTx)
      && e'[cur].firstTx == e[prev].firstTx && e'[cur].group == e[cur].group + e[prev].group
      && e'[cur].deps == e[cur].deps + e[prev].deps && e'[cur].feerate == e[cur].feerate.Add(e[prev].feerate)
      && Links(e') == Links(e)[cur := Links(e)[prev]]
  {
  }

  lemma MergedTail(e: seq<TxEntry>, h: Graph, p: seq<nat>, c: seq<nat>, x: TxEntry)
    requires p != [] && c != [] && TailOf(p) < |e| && TailOf(c) < |e|
    requires TailAt(e[TailOf(p)], h, p) && TailAt(e[TailOf(c)], h, c)
    requires var y, z := e[TailOf(c)], e[TailOf(p)];
      x.firstTx == z.firstTx && x.group == y.group + z.group && x.deps == y.deps + z.deps && x.feerate == y.feerate.Add(z.feerate)
    ensures TailAt(x, h, p + c)
  {
    ElemsConcat(p, c);
    SeqSumConcat(h.Rates(), p, c);
    assert AncOf(h, Elems(p + c)) == AncOf(h, Elems(c)) + AncOf(h, Elems(p));
  }

  /** Joining two chains of transactions. */
  lemma MergedChain(e: seq<TxEntry>, e': seq<TxEntry>, h: Graph, p: seq<nat>, c: seq<nat>, k: nat)
    requires GroupAt(e, h, p) && GroupAt(e, h, c) && NoDup(c) && Elems(p) !! Elems(c) && |e'| == |e| && k < |p + c|
    requires forall i :: 0 <= i < |e| ==> e'[i].prevTx == if i == c[0] + 1 then TailOf(p) else e[i].prevTx
    ensures (p + c)[k] + 1 < |e'| && ChainAt(e', p + c, k)
  {
    assert c[0] in Elems(c);
    if k < |p| {
      assert p[k] in Elems(p);
      assert ChainAt(e, p, k);
    } else {
      var j := k - |p|;
      assert ChainAt(e, c, j);
    }
  }

  lemma MergedGroup(e: seq<TxEntry>, e': seq<TxEntry>, h: Graph, p: seq<nat>, c: seq<nat>)
    requires GroupAt(e, h, p) && GroupAt(e, h, c) && NoDup(c) && Elems(p) !! Elems(c)
    requires |e'| == |e| && forall i :: 0 <= i < |e| ==> e'[i].prevTx == if i == c[0] + 1 then TailOf(p) else e[i].prevTx
    requires TailAt(e'[TailOf(c)], h, p + c)
    ensures GroupAt(e', h, p + c)
  {
    var m := p + c;
    assert Last(m) == Last(c);
    forall k: nat | k < |m| ensures m[k] + 1 < |e'| && ChainAt(e', m, k) {
      MergedChain(e, e', h, p, c, k);
    }
  }

  lemma MergedRepresents(e: seq<TxEntry>, h: Graph, before: seq<seq<nat>>, p: seq<nat>, c: seq<nat>, after: seq<seq<nat>>)
    requires Represents(e, h, (before + [p]) + [c] + after) && Distinct((before + [p]) + [c] + after)
    ensures p != [] && c != [] && TailOf(p) < |e| && TailOf(c) < |e| && e[TailOf(c)].firstTx < |e| && e[TailOf(p)].prevGroup == PrevOf(before)
    ensures Represents(Merged(e, TailOf(p), TailOf(c), e[TailOf(c)].firstTx), h, before + [p + c] + after)
  {
    var gs, n := (before + [p]) + [c] + after, |before|;
    assert gs[n] == p && gs[n + 1] == c && GroupAt(e, h, gs[n]) && GroupAt(e, h, gs[n + 1]);
    OtherGroup(gs, n + 1, n, c[0]);
    OtherGroup(gs, n + 1, n, Last(c));
    assert Last(p) == p[|p| - 1];
    MergedEffect(e, TailOf(p), TailOf(c), c[0] + 1);
    MergedGroups(e, h, before, p, c, after);
    MergedRing(e, before, p, c, after);
  }

  lemma MergedRing(e: seq<TxEntry>, before: seq<seq<nat>>, p: seq<nat>, c: seq<nat>, after: seq<seq<nat>>)
    requires Ring(Links(e), RingOf((before + [p]) + [c] + after)) && Distinct((before + [p]) + [c] + after)
    requires p != [] && c != [] && forall i :: 0 <= i < |(before + [p]) + [c] + after| ==> ((before + [p]) + [c] + after)[i] != []
    ensures TailOf(p) < |e| && TailOf(c) < |e| && e[TailOf(p)].prevGroup == PrevOf(before)
    ensures Ring(Links(e)[TailOf(c) := Links(e)[TailOf(p)]], RingOf(before + [p + c] + after))
  {
    var gs, n := (before + [p]) + [c] + after, |before|;
    RingAround(before, p, c, after);
    RingDistinct(gs);
    RingMerge(Links(e), [SENTINEL] + Tails(before), TailOf(p), TailOf(c), Tails(after) + [SENTINEL]);
    assert RingOf(gs)[n + 1] == TailOf(p) && RingOf(gs)[n] == PrevOf(before);
    assert Last(p + c) == Last(c);
  }

  lemma MergedGroups(e: seq<TxEntry>, h: Graph, before: seq<seq<nat>>, p: seq<nat>, c: seq<nat>, after: seq<seq<nat>>)
    requires AllAt(e, h, (before + [p]) + [c] + after) && Distinct((before + [p]) + [c] + after)
    requires p != [] && c != [] && TailOf(p) < |e| && TailOf(c) < |e| && c[0] + 1 < |e|
    requires TailOf(p) != TailOf(c) && TailOf(p) != c[0] + 1
    ensures AllAt(Merged(e, TailOf(p), TailOf(c), c[0] + 1), h, before + [p + c] + after)
  {
    var gs, gs', n := (before + [p]) + [c] + after, before + [p + c] + after, |before|;
    var e' := Merged(e, TailOf(p), TailOf(c), c[0] + 1);
    assert gs[n] == p && gs[n + 1] == c;
    assert Elems(gs[n]) !! Elems(gs[n + 1]);
    MergedEffect(e, TailOf(p), TailOf(c), c[0] + 1);
    forall k | 0 <= k < |gs'| ensures GroupAt(e', h, gs'[k]) {
      if k == n {
        MergedTail(e, h, p, c, e'[TailOf(c)]);
        MergedGroup(e, e', h, p, c);
      } else {
        var k' := if k < n then k else k + 1;
        assert gs'[k] == gs[k'];
        OtherGroup(gs, n + 1, k', c[0]);
        OtherGroup(gs, n + 1, k', Last(c));
        GroupFrame(e, e', h, gs[k']);
      }
    }
  }

  // ---------------------------------------------------------------- the passes

  /** What the merge/swap cycle keeps. */
  ghost predicate Cycling(e: seq<TxEntry>, h: Graph, before: seq<seq<nat>>, c: seq<nat>, after: seq<seq<nat>>, todo: set<nat>) {
    && Valid(h) && Placing(h, before, c, after, todo)
    && Represents(e, h, before + [c] + after)
  }

  /** What the loop condition compares. */
  lemma CycleGuard(e: seq<TxEntry>, h: Graph, before: seq<seq<nat>>, c: seq<nat>, after: seq<seq<nat>>, todo: set<nat>)
    requires Cycling(e, h, before, c, after, todo)
    ensures c != [] && TailOf(c) < |e| && PrevOf(before) < |e| && e[TailOf(c)].prevGroup == PrevOf(before)
    ensures e[TailOf(c)].feerate.Higher(e[PrevOf(before)].feerate)
        <==> before != [] && SeqSum(h.Rates(), c).Higher(SeqSum(h.Rates(), before[|before| - 1]))
    ensures before != [] ==> e[TailOf(c)].deps == AncOf(h, Elems(c)) && e[PrevOf(before)].group == Elems(before[|before| - 1])
  {
    var gs, n := before + [c] + after, |before|;
    assert gs[n] == c && GroupAt(e, h, gs[n]);
    assert RingOf(gs)[n + 1] == TailOf(c) && RingOf(gs)[n] == PrevOf(before);
    if before == [] {
      MulIs(e[TailOf(c)].feerate.fee, 0);
      MulIs(0, e[TailOf(c)].feerate.size);
    } else {
      assert gs[n - 1] == before[n - 1] && GroupAt(e, h, gs[n - 1]);
    }
  }

  lemma CycleSwap(e: seq<TxEntry>, h: Graph, before: seq<seq<nat>>, c: seq<nat>, after: seq<seq<nat>>, todo: set<nat>)
    requires Cycling(e, h, before, c, after, todo) && before != []
    requires SeqSum(h.Rates(), c).Higher(SeqSum(h.Rates(), before[|before| - 1]))
    requires AncOf(h, Elems(c)) !! Elems(before[|before| - 1])
    ensures TailOf(c) < |e| && PrevOf(before) < |e| && NextOf(after) < |e|
    ensures var rest, p := before[..|before| - 1], before[|before| - 1];
      && Cycling(Swapped(e, TailOf(p), TailOf(c), NextOf(after)), h, rest, c, [p] + after, todo)
      && Place(h, before, c, after) == Place(h, rest, c, [p] + after) && e[TailOf(p)].prevGroup == PrevOf(rest)
  {
    var rest, p := before[..|before| - 1], before[|before| - 1];
    assert before == rest + [p];
    FlattenDistinct(before + [c] + after);
    SwapStep(h, rest, p, c, after, todo);
    SwappedRepresents(e, h, rest, p, c, after);
  }

  lemma CycleMerge(e: seq<TxEntry>, h: Graph, before: seq<seq<nat>>, c: seq<nat>, after: seq<seq<nat>>, todo: set<nat>)
    requires Cycling(e, h, before, c, after, todo) && before != []
    requires SeqSum(h.Rates(), c).Higher(SeqSum(h.Rates(), before[|before| - 1]))
    requires !(AncOf(h, Elems(c)) !! Elems(before[|before| - 1]))
    ensures c != [] && TailOf(c) < |e| && PrevOf(before) < |e| && e[TailOf(c)].firstTx < |e|
    ensures var rest, p := before[..|before| - 1], before[|before| - 1];
      && TailOf(p + c) == TailOf(c) && TailOf(p) != TailOf(c) && TailOf(p) != e[TailOf(c)].firstTx
      && Cycling(Merged(e, TailOf(p), TailOf(c), e[TailOf(c)].firstTx), h, rest, p + c, after, todo)
      && Place(h, before, c, after) == Place(h, rest, p + c, after) && e[TailOf(p)].prevGroup == PrevOf(rest)
  {
    var rest, p := before[..|before| - 1], before[|before| - 1];
    assert before == rest + [p];
    FlattenDistinct(before + [c] + after);
    MergeStep(h, rest, p, c, after, todo);
    MergedRepresents(e, h, rest, p, c, after);
    MergedTails(e, h, rest, p, c, after);
  }

  lemma MergedTails(e: seq<TxEntry>, h: Graph, rest: seq<seq<nat>>, p: seq<nat>, c: seq<nat>, after: seq<seq<nat>>)
    requires AllAt(e, h, (rest + [p]) + [c] + after) && Distinct((rest + [p]) + [c] + after)
    ensures p != [] && c != [] && TailOf(c) < |e|
    ensures TailOf(p + c) == TailOf(c) && TailOf(p) != TailOf(c) && TailOf(p) != e[TailOf(c)].firstTx
  {
    var gs, n := (rest + [p]) + [c] + after, |rest|;
    assert gs[n] == p && gs[n + 1] == c && GroupAt(e, h, gs[n]) && GroupAt(e, h, gs[n + 1]);
    OtherGroup(gs, n + 1, n, c[0]);
    OtherGroup(gs, n + 1, n, Last(c));
    assert Last(p) == p[|p| - 1];
  }

  /** Move the last group, just added for one transaction, to where it belongs. */
  method MergeSwapCycle(entries: array<TxEntry>, idx: nat, ghost h: Graph, ghost gs: seq<seq<nat>>, ghost todo: set<nat>)
    requires Cycling(entries[..], h, gs, [idx], [], todo)
    modifies entries
    ensures Represents(entries[..], h, Place(h, gs, [idx], []))
  {
    var cur := idx + 1;
    var next := SENTINEL;
    ghost var before, c, after := gs, [idx], [];
    CycleGuard(entries[..], h, before, c, after, todo);
    var prev := entries[cur].prevGroup;
    while entries[cur].feerate.Higher(entries[prev].feerate)
      invariant Cycling(entries[..], h, before, c, after, todo)
      invariant cur == TailOf(c) && prev == PrevOf(before) && next == NextOf(after)
      invariant cur < entries.Length && prev < entries.Length
      invariant Place(h, before, c, after) == Place(h, gs, [idx], [])
      decreases |before|
    {
      CycleGuard(entries[..], h, before, c, after, todo);
      ghost var rest, p, e := before[..|before| - 1], before[|before| - 1], entries[..];
      if !(entries[cur].deps !! entries[prev].group) {
        CycleMerge(e, h, before, c, after, todo);
        entries[cur] := entries[cur].(group := entries[cur].group + entries[prev].group,
                                      deps := entries[cur].deps + entries[prev].deps,
                                      feerate := entries[cur].feerate.Add(entries[prev].feerate));
        var first := entries[cur].firstTx;
        entries[first] := entries[first].(prevTx := prev);
        entries[cur] := entries[cur].(firstTx := entries[prev].firstTx);
        var prev' := entries[prev].prevGroup;
        entries[cur] := entries[cur].(prevGroup := prev');
        assert entries[..] == Merged(e, prev, cur, first);
        prev := prev';
        before, c := rest, p + c;
      } else {
        CycleSwap(e, h, before, c, after, todo);
        var preprev := entries[prev].prevGroup;
        entries[next] := entries[next].(prevGroup := prev);
        entries[prev] := entries[prev].(prevGroup := cur);
        entries[cur] := entries[cur].(prevGroup := preprev);
        assert entries[..] == Swapped(e, prev, cur, next);
        next, prev := prev, preprev;
        before, after := rest, [p] + after;
      }
      CycleGuard(entries[..], h, before, c, after, todo);
    }
    CycleGuard(entries[..], h, before, c, after, todo);
  }

  /** The last `done` transactions of l have been written, from the front if reversing. */
  ghost predicate Written(lin: seq<nat>, l: seq<nat>, done: nat, rev: bool) {
    && |lin| == |l| && done <= |l|
    && forall k :: |l| - done <= k < |l| ==> l[k] == lin[if rev then |l| - 1 - k else k]
  }

  lemma WrittenAll(lin: seq<nat>, l: seq<nat>, rev: bool)
    requires Written(lin, l, |l|, rev)
    ensures lin == if rev then Reversed(l) else l
  {
    forall k | 0 <= k < |l| ensures lin[k] == if rev then Reversed(l)[k] else l[k] {
      var i := if rev then |l| - 1 - k else k;
      assert l[i] == lin[if rev then |l| - 1 - i else i];
      if rev { ReversedAt(l, k); }
    }
  }

  /** Write out one group, from its last transaction to its first. */
  method WriteGroup(entries: array<TxEntry>, curGroup: nat, lin: array<nat>, rev: bool, done: nat,
                    ghost h: Graph, ghost l: seq<nat>, ghost start: nat, ghost c: seq<nat>)
    returns (done': nat)
    requires GroupAt(entries[..], h, c) && curGroup == TailOf(c)
    requires start + |c| == |l| - done && l[start..start + |c|] == c && Written(lin[..], l, done, rev)
    modifies lin
    ensures done' == done + |c| && Written(lin[..], l, done', rev)
  {
    var curTx := curGroup;
    done' := done;
    ghost var k := |c|;
    while curTx != NO_PREV_TX
      invariant 0 <= k <= |c| && done' == done + |c| - k && curTx == if k == 0 then NO_PREV_TX else c[k - 1] + 1
      invariant Written(lin[..], l, done', rev)
      decreases k
    {
      assert ChainAt(entries[..], c, k - 1);
      assert l[start + k - 1] == l[start..start + |c|][k - 1];
      lin[if rev then done' else lin.Length - 1 - done'] := curTx - 1;
      done' := done' + 1;
      curTx := entries[curTx].prevTx;
      k := k - 1;
    }
  }

  /** Convert the groups back to a linearization, overwriting the old one. */
  method WriteBack(entries: array<TxEntry>, lin: array<nat>, rev: bool, ghost h: Graph, ghost gs: seq<seq<nat>>)
    requires Represents(entries[..], h, gs) && lin.Length == |Flatten(gs)|
    modifies lin
    ensures lin[..] == if rev then Reversed(Flatten(gs)) else Flatten(gs)
  {
    ghost var j := |gs|;
    ghost var l := Flatten(gs);
    RingEnd(entries[..], h, gs);
    var curGroup := entries[SENTINEL].prevGroup;
    var done := 0;
    while curGroup != SENTINEL
      invariant 0 <= j <= |gs| && curGroup == PrevOf(gs[..j])
      invariant done == |l| - |Flatten(gs[..j])| && Written(lin[..], l, done, rev)
      decreases j
    {
      curGroup, done := WriteNextGroup(entries, curGroup, lin, rev, done, h, gs, j);
      j := j - 1;
    }
    RingDone(entries[..], h, gs, j);
    WrittenAll(lin[..], l, rev);
  }

  method WriteNextGroup(entries: array<TxEntry>, curGroup: nat, lin: array<nat>, rev: bool, done: nat, ghost h: Graph, ghost gs: seq<seq<nat>>, ghost j: nat) returns (curGroup': nat, done': nat)
    requires Represents(entries[..], h, gs) && lin.Length == |Flatten(gs)| && 0 < j <= |gs|
    requires curGroup == PrevOf(gs[..j]) && done == |Flatten(gs)| - |Flatten(gs[..j])| && Written(lin[..], Flatten(gs), done, rev)
    modifies lin
    ensures curGroup' == PrevOf(gs[..j - 1]) && done' == |Flatten(gs)| - |Flatten(gs[..j - 1])|
    ensures Written(lin[..], Flatten(gs), done', rev)
  {
    GroupInside(gs, j - 1);
    RingStep(entries[..], h, gs, j - 1);
    done' := WriteGroup(entries, curGroup, lin, rev, done, h, Flatten(gs), |Flatten(gs[..j - 1])|, gs[j - 1]);
    curGroup' := entries[curGroup].prevGroup;
  }

  lemma RingEnd(e: seq<TxEntry>, h: Graph, gs: seq<seq<nat>>)
    requires Represents(e, h, gs)
    ensures e[SENTINEL].prevGroup == PrevOf(gs) && gs[..|gs|] == gs
  {
    assert RingOf(gs)[|gs| + 1] == SENTINEL && RingOf(gs)[|gs|] == PrevOf(gs);
  }

  lemma RingStep(e: seq<TxEntry>, h: Graph, gs: seq<seq<nat>>, j: nat)
    requires Represents(e, h, gs) && j < |gs|
    ensures GroupAt(e, h, gs[j]) && PrevOf(gs[..j + 1]) == TailOf(gs[j]) < |e|
    ensures e[TailOf(gs[j])].prevGroup == PrevOf(gs[..j])
  {
    assert RingOf(gs)[j + 1] == TailOf(gs[j]) && RingOf(gs)[j] == PrevOf(gs[..j]);
  }

  lemma RingDone(e: seq<TxEntry>, h: Graph, gs: seq<seq<nat>>, j: nat)
    requires Represents(e, h, gs) && j <= |gs| && PrevOf(gs[..j]) == SENTINEL
    ensures j == 0 && Flatten(gs[..j]) == []
  {
    if j > 0 {
      RingStep(e, h, gs, j - 1);
    }
  }

  /** Where a group lies in the flattened list. */
  lemma GroupInside(gs: seq<seq<nat>>, j: nat)
    requires j < |gs|
    ensures |Flatten(gs[..j + 1])| == |Flatten(gs[..j])| + |gs[j]| <= |Flatten(gs)|
    ensures Flatten(gs)[|Flatten(gs[..j])|..|Flatten(gs[..j])| + |gs[j]|] == gs[j]
  {
    assert gs[..j + 1] == gs[..j] + [gs[j]];
    FlattenSnoc(gs[..j], gs[j]);
    FlattenPrefix(gs, j + 1);
  }

  /** The graph a pass works in. */
  function PassGraph(g: Graph, rev: bool): Graph {
    if rev then Mirror(g) else g
  }

  function PassOrder(l: seq<nat>, rev: bool): seq<nat> {
    if rev then Reversed(l) else l
  }

  lemma PassInput(g: Graph, rev: bool, l: seq<nat>)
    requires Valid(g) && IsLinearization(g, l, g.used)
    ensures Valid(PassGraph(g, rev)) && IsLinearization(PassGraph(g, rev), PassOrder(l, rev), g.used)
    ensures |PassOrder(l, rev)| == |l|
    ensures forall i :: 0 <= i < |l| ==> l[if rev then |l| - 1 - i else i] == PassOrder(l, rev)[i]
  {
    if rev {
      MirrorValid(g);
      MirrorLinearization(g, l, g.used);
      forall i | 0 <= i < |l| ensures l[|l| - 1 - i] == Reversed(l)[i] {
        ReversedAt(l, i);
      }
    }
  }

  /** The state before transaction i of a pass is inserted. */
  lemma BeforeInsert(h: Graph, l: seq<nat>, i: nat)
    requires Valid(h) && IsLinearization(h, l, h.used) && i < |l|
    ensures var gs := Regroup(h, l[..i]);
      && Placing(h, gs, [l[i]], [], Elems(l[..i + 1])) && l[i] in h.used
      && (forall k :: 0 <= k < |gs| ==> l[i] !in gs[k])
      && Regroup(h, l[..i + 1]) == Place(h, gs, [l[i]], [])
  {
    var m := l[..i + 1];
    assert l == m + l[i + 1..];
    NoDupConcat(m, l[i + 1..]);
    TopologicalConcat(h, m, l[i + 1..]);
    ElemsConcat(m, l[i + 1..]);
    LinearizationInit(h, m, Elems(m));
    assert m[..|m| - 1] == l[..i] && Last(m) == l[i];
    RegroupCorrect(h, l[..i], Elems(l[..i]));
    var gs := Regroup(h, l[..i]);
    PlacingStart(h, gs, l[i], Elems(l[..i]));
    forall k | 0 <= k < |gs| ensures l[i] !in gs[k] {
      FlattenMember(gs, k);
      assert l[i] !in Elems(gs[k]);
    }
  }

  /** Add a transaction as the new last group. */
  method AppendGroup(g: Graph, rev: bool, entries: array<TxEntry>, idx: nat)
    requires 0 < entries.Length && idx + 1 < entries.Length && idx < |g.entries|
    modifies entries
    ensures entries[..] == Appended(old(entries[..]), PassGraph(g, rev), idx)
  {
    var curGroup := idx + 1;
    entries[curGroup] := entries[curGroup].(group := {idx});
    entries[curGroup] := entries[curGroup].(deps := if rev then g.Desc(idx) else g.Anc(idx));
    entries[curGroup] := entries[curGroup].(feerate := g.entries[idx].feerate);
    if rev {
      entries[curGroup] := entries[curGroup].(feerate := entries[curGroup].feerate.Negate());
    }
    entries[curGroup] := entries[curGroup].(prevTx := NO_PREV_TX);
    entries[curGroup] := entries[curGroup].(firstTx := curGroup);
    entries[curGroup] := entries[curGroup].(prevGroup := entries[SENTINEL].prevGroup);
    entries[SENTINEL] := entries[SENTINEL].(prevGroup := curGroup);
  }

  /** Insert transaction i of the order as a group of its own, then merge and swap. */
  method Insert(g: Graph, rev: bool, entries: array<TxEntry>, idx: nat, ghost l: seq<nat>, ghost i: nat)
    requires Valid(g) && entries.Length == |g.entries| + 1 && entries[SENTINEL].feerate == Empty
    requires Valid(PassGraph(g, rev)) && IsLinearization(PassGraph(g, rev), l, g.used) && i < |l| && idx == l[i]
    requires Represents(entries[..], PassGraph(g, rev), Regroup(PassGraph(g, rev), l[..i]))
    modifies entries
    ensures Represents(entries[..], PassGraph(g, rev), Regroup(PassGraph(g, rev), l[..i + 1]))
    ensures entries[SENTINEL].feerate == Empty
  {
    ghost var h := PassGraph(g, rev);
    BeforeInsert(h, l, i);
    AppendedRepresents(entries[..], h, Regroup(h, l[..i]), idx);
    AppendGroup(g, rev, entries, idx);
    MergeSwapCycle(entries, idx, h, Regroup(h, l[..i]), Elems(l[..i + 1]));
  }

  /** One pass over the linearization: backward if rev, forward otherwise. */
  method Pass(g: Graph, rev: bool, entries: array<TxEntry>, linearization: array<nat>)
    requires Valid(g) && IsLinearization(g, linearization[..], g.used)
    requires entries.Length == |g.entries| + 1 && entries[SENTINEL].feerate == Empty
    modifies entries, linearization
    ensures linearization[..] == if rev then BackwardPass(g, old(linearization[..])) else ForwardPass(g, old(linearization[..]))
    ensures entries[SENTINEL].feerate == Empty
  {
    ghost var h, l := PassGraph(g, rev), PassOrder(linearization[..], rev);
    PassInput(g, rev, linearization[..]);
    var n := linearization.Length;
    entries[SENTINEL] := entries[SENTINEL].(prevGroup := SENTINEL);
    assert Represents(entries[..], h, Regroup(h, l[..0]));
    for i := 0 to n
      invariant linearization[..] == old(linearization[..])
      invariant Represents(entries[..], h, Regroup(h, l[..i]))
    {
      var idx := linearization[if rev then n - 1 - i else i];
      assert idx == old(linearization[..])[if rev then n - 1 - i else i] == l[i];
      Insert(g, rev, entries, idx, l, i);
    }
    assert l[..n] == l;
    RegroupCorrect(h, l, g.used);
    SameLength(h, l, ForwardPass(h, l), g.used);
    WriteBack(entries, linearization, rev, h, Regroup(h, l));
  }

  lemma SameLength(h: Graph, a: seq<nat>, b: seq<nat>, todo: set<nat>)
    requires IsLinearization(h, a, todo) && IsLinearization(h, b, todo)
    ensures |a| == |b|
  {
    ElemsCard(a);
    ElemsCard(b);
  }

  /**
   Improve a linearization in place. The result is topologically valid, nowhere worse, its chunks
   are connected, and on tree-shaped graphs it is optimal.
   */
  method PostLinearize(g: Graph, linearization: array<nat>)
    requires Valid(g) && IsLinearization(g, linearization[..], g.used)
    modifies linearization
    ensures linearization[..] == PostLinearized(g, old(linearization[..]))
    ensures IsLinearization(g, linearization[..], g.used)
    ensures AtLeastAsGood(g, linearization[..], old(linearization[..]))
    ensures AllConnected(g, Chunks(g.Rates(), linearization[..]))
    ensures AtMostOneChild(g) || AtMostOneParent(g) ==>
      forall other: seq<nat> :: IsLinearization(g, other, g.used) ==> AtLeastAsGood(g, linearization[..], other)
  {
    var entries := new TxEntry[|g.entries| + 1](_ => TxEntry(0, 0, 0, {}, {}, Empty));
    ghost var l := linearization[..];
    Pass(g, true, entries, linearization);
    BackwardCorrect(g, l);
    Pass(g, false, entries, linearization);
    PostLinearizedCorrect(g, l);
    if AtMostOneChild(g) || AtMostOneParent(g) {
      forall other: seq<nat> | IsLinearization(g, other, g.used) ensures AtLeastAsGood(g, PostLinearized(g, l), other) {
        TreeOptimal(g, l, other);
      }
    }
  }
}
