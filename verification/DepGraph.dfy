/**
 Dependency graphs as ancestor and descendant sets (DepGraph, src/cluster_linearize.h:25-310).

 `DepGraph` is the object whose operations rewrite the stored sets in place. `Graph` is the value
 it holds; algorithms that take a `const DepGraph&` take a `Graph`.
 */
module DepGraphs {
  import opened FeeFracs
  import opened TxSets

  datatype Entry = Entry(feerate: FeeFrac, ancestors: set<nat>, descendants: set<nat>)

  datatype Graph = Graph(entries: seq<Entry>, used: set<nat>) {
    function Anc(i: nat): set<nat> {
      if i < |entries| then entries[i].ancestors else {}
    }

    function Desc(i: nat): set<nat> {
      if i < |entries| then entries[i].descendants else {}
    }

    function Rates(): Rates {
      seq(|entries|, i requires 0 <= i < |entries| => entries[i].feerate)
    }
  }

  ghost predicate InRange(g: Graph) {
    && (forall i <- g.used :: i < |g.entries|)
    && (|g.entries| > 0 ==> |g.entries| - 1 in g.used)
  }

  ghost predicate Reflexive(g: Graph) {
    forall i <- g.used :: i in g.Anc(i) && g.Anc(i) <= g.used && g.Desc(i) <= g.used
  }

  ghost predicate Inverse(g: Graph) {
    forall i: nat, j: nat :: i in g.used && j in g.used ==> (j in g.Anc(i) <==> i in g.Desc(j))
  }

  ghost predicate Transitive(g: Graph) {
    forall i: nat, j: nat, k: nat :: i in g.used && j in g.Anc(i) && k in g.Anc(j) ==> k in g.Anc(i)
  }

  /** Ancestor and descendant sets are reflexive, transitive and mutually inverse. */
  ghost predicate Closed(g: Graph) {
    Reflexive(g) && Inverse(g) && Transitive(g)
  }

  ghost predicate WellFormed(g: Graph) {
    InRange(g) && Closed(g)
  }

  ghost predicate Acyclic(g: Graph) {
    forall i: nat, j: nat :: i in g.used && j in g.Anc(i) && i in g.Anc(j) ==> i == j
  }

  /** A graph of transactions that can be linearized: acyclic, with positive sizes. */
  ghost predicate Valid(g: Graph) {
    WellFormed(g) && Acyclic(g) && Sized(g.Rates(), g.used)
  }

  /** All ancestors of the members of ps. */
  ghost function AncOf(g: Graph, ps: set<nat>): set<nat> {
    set p, a | p in ps && a in g.Anc(p) :: a
  }

  /** g' is g with every member of parents made an ancestor of child. */
  ghost predicate DependenciesAdded(g: Graph, g': Graph, parents: set<nat>, child: nat) {
    && g'.used == g.used && |g'.entries| == |g.entries|
    && (forall i :: 0 <= i < |g.entries| ==> g'.entries[i].feerate == g.entries[i].feerate)
    && (forall i: nat {:trigger g'.Anc(i)} :: i in g.used ==> g'.Anc(i) == if child in g.Anc(i) then g.Anc(i) + AncOf(g, parents) else g.Anc(i))
    && (forall i: nat {:trigger g'.Desc(i)} :: i in g.used ==> g'.Desc(i) == if i in AncOf(g, parents) then g.Desc(i) + g.Desc(child) else g.Desc(i))
  }

  lemma AddedTransitive(g: Graph, g': Graph, parents: set<nat>, child: nat, i: nat, j: nat, k: nat)
    requires WellFormed(g) && DependenciesAdded(g, g', parents, child)
    requires parents <= g.used && child in g.used
    requires i in g.used && j in g'.Anc(i) && k in g'.Anc(j)
    ensures k in g'.Anc(i)
  {
    if j !in g.Anc(i) {
      var p :| p in parents && j in g.Anc(p);
      assert k in g.Anc(j) ==> k in g.Anc(p);
    }
  }

  lemma AddedInverse(g: Graph, g': Graph, parents: set<nat>, child: nat, i: nat, j: nat)
    requires WellFormed(g) && DependenciesAdded(g, g', parents, child)
    requires parents <= g.used && child in g.used && i in g.used && j in g.used
    ensures j in g'.Anc(i) <==> i in g'.Desc(j)
  {
    assert child in g.Anc(i) <==> i in g.Desc(child);
  }

  lemma AddedReflexive(g: Graph, g': Graph, parents: set<nat>, child: nat)
    requires InRange(g) && Reflexive(g) && DependenciesAdded(g, g', parents, child)
    requires parents <= g.used && child in g.used
    ensures Reflexive(g') && InRange(g') && parents <= g'.Anc(child)
  {
    AncestorsUsed(g, parents);
    ReflexiveWith(g, g', AncOf(g, parents), child);
  }

  lemma ReflexiveWith(g: Graph, g': Graph, more: set<nat>, child: nat)
    requires InRange(g) && Reflexive(g) && more <= g.used && child in g.used && g'.used == g.used && |g'.entries| == |g.entries|
    requires forall i: nat {:trigger g'.Anc(i)} :: i in g.used ==> g'.Anc(i) == if child in g.Anc(i) then g.Anc(i) + more else g.Anc(i)
    requires forall i: nat {:trigger g'.Desc(i)} :: i in g.used ==> g'.Desc(i) == if i in more then g.Desc(i) + g.Desc(child) else g.Desc(i)
    ensures Reflexive(g') && InRange(g') && more <= g'.Anc(child)
  {
    forall i: nat | i in g.used ensures i in g'.Anc(i) && g'.Anc(i) <= g.used && g'.Desc(i) <= g.used {
      assert i in g.Anc(i) && g.Anc(i) <= g.used && g.Desc(i) <= g.used && g.Desc(child) <= g.used;
    }
    assert child in g.Anc(child);
  }

  /** Ancestors of used transactions are used, and include them. */
  lemma AncestorsUsed(g: Graph, parents: set<nat>)
    requires Reflexive(g) && parents <= g.used
    ensures parents <= AncOf(g, parents) <= g.used
  {
    forall p: nat | p in parents ensures p in AncOf(g, parents) {
      assert p in g.Anc(p);
    }
  }

  lemma DependenciesAddedClosed(g: Graph, g': Graph, parents: set<nat>, child: nat)
    requires WellFormed(g) && DependenciesAdded(g, g', parents, child)
    requires parents <= g.used && child in g.used
    ensures WellFormed(g') && parents <= g'.Anc(child)
  {
    assert Transitive(g') by {
      forall i: nat, j: nat, k: nat | i in g'.used && j in g'.Anc(i) && k in g'.Anc(j) ensures k in g'.Anc(i) {
        AddedTransitive(g, g', parents, child, i, j, k);
      }
    }
    assert Inverse(g') by {
      forall i: nat, j: nat | i in g'.used && j in g'.used ensures j in g'.Anc(i) <==> i in g'.Desc(j) {
        AddedInverse(g, g', parents, child, i, j);
      }
    }
    AddedReflexive(g, g', parents, child);
  }

  /** The result is the least closed relation containing the old one and the new edges. */
  lemma DependenciesAddedLeast(g: Graph, g': Graph, parents: set<nat>, child: nat, h: Graph)
    requires WellFormed(g) && DependenciesAdded(g, g', parents, child)
    requires parents <= g.used && child in g.used
    requires Closed(h) && h.used == g.used
    requires forall i <- g.used :: g.Anc(i) <= h.Anc(i)
    requires parents <= h.Anc(child)
    ensures forall i <- g.used :: g'.Anc(i) <= h.Anc(i) && g'.Desc(i) <= h.Desc(i)
  {
    forall i <- g.used ensures g'.Anc(i) <= h.Anc(i) {
      forall k: nat | k in g'.Anc(i) && k !in g.Anc(i) ensures k in h.Anc(i) {
        var p :| p in parents && k in g.Anc(p);
        assert k in h.Anc(p) && p in h.Anc(child) && child in h.Anc(i);
        assert k in h.Anc(child);
      }
    }
    DependenciesAddedClosed(g, g', parents, child);
    forall i <- g.used, k | k in g'.Desc(i) ensures k in h.Desc(i) {
      assert i in g'.Anc(k);
    }
  }

  ghost predicate InjectiveOn(mapping: seq<nat>, s: set<nat>) {
    && (forall i <- s :: i < |mapping|)
    && forall i: nat, j: nat :: i in s && j in s && i != j ==> mapping[i] != mapping[j]
  }

  function Image(mapping: seq<nat>, s: set<nat>): set<nat> {
    set i | i in s && i < |mapping| :: mapping[i]
  }

  ghost predicate SameRates(g: Graph, h: Graph, mapping: seq<nat>) {
    && h.used == Image(mapping, g.used)
    && forall i: nat :: i in g.used && i < |mapping| && i < |g.entries| ==>
      mapping[i] < |h.entries| && h.entries[mapping[i]].feerate == g.entries[i].feerate
  }

  /** Whatever h relates, g relates. */
  ghost predicate AncestryWithin(g: Graph, h: Graph, mapping: seq<nat>) {
    forall i: nat, j: nat :: i in g.used && j in g.used && i < |mapping| && j < |mapping| && mapping[j] in h.Anc(mapping[i])
      ==> j in g.Anc(i)
  }

  /** mapping carries g onto h: same transactions, same feerates, same ancestry. */
  ghost predicate Isomorphic(g: Graph, h: Graph, mapping: seq<nat>) {
    && InjectiveOn(mapping, g.used) && SameRates(g, h, mapping)
    && (forall i: nat, j: nat :: i in g.used && j in g.used ==>
        (j in g.Anc(i) <==> mapping[j] in h.Anc(mapping[i])))
  }

  /** x is an ancestor of some member of ps. */
  ghost predicate Covered(g: Graph, ps: set<nat>, x: nat) {
    exists p: nat :: p in ps && x in g.Anc(p)
  }

  ghost predicate Covers(g: Graph, ps: set<nat>, s: set<nat>) {
    forall x: nat {:trigger Covered(g, ps, x)} :: x in s ==> Covered(g, ps, x)
  }

  ghost predicate CoversExactly(g: Graph, ps: set<nat>, s: set<nat>) {
    forall x: nat {:trigger Covered(g, ps, x)} :: x in s <==> Covered(g, ps, x)
  }

  /** No member of ps below n has another member of ps as an ancestor. */
  ghost predicate Antichain(g: Graph, ps: set<nat>, n: nat) {
    forall p: nat, q: nat :: p in ps && p < n && q in ps && p != q ==> q !in g.Anc(p)
  }

  /**
   The (reduced) parents of i: an antichain whose ancestors are all of i's other ancestors.
   Mirrors DepGraph::GetReducedParents, which edits the set it walks over.
   */
  method GetReducedParents(g: Graph, i: nat) returns (parents: set<nat>)
    requires WellFormed(g) && i in g.used
    ensures parents <= g.Anc(i) - {i}
    ensures Covers(g, parents, g.Anc(i) - {i})
    ensures Antichain(g, parents, |g.entries|)
    ensures CoversExactly(g, parents, g.Anc(i) - {i}) <==> OnNoCycle(g, i)
  {
    parents := g.Anc(i) - {i};
    ghost var all := parents;
    assert Covers(g, parents, all) by {
      forall x: nat | x in all ensures Covered(g, parents, x) { assert x in g.Anc(x); }
    }
    for parent := 0 to |g.entries|
      invariant parents <= all
      invariant Covers(g, parents, all)
      invariant Antichain(g, parents, parent)
    {
      if parent in parents {
        StillCovered(g, all, parents, parent);
        parents := parents - g.Anc(parent) + {parent};
      }
    }
    ReducedParentsExact(g, i, parents);
  }

  lemma StillCovered(g: Graph, all: set<nat>, parents: set<nat>, parent: nat)
    requires WellFormed(g) && parents <= g.used && parent in parents && Covers(g, parents, all)
    ensures Covers(g, parents - g.Anc(parent) + {parent}, all)
  {
    var after := parents - g.Anc(parent) + {parent};
    forall x: nat | x in all ensures Covered(g, after, x) {
      assert Covered(g, parents, x);
      var y :| y in parents && x in g.Anc(y);
      if y !in after {
        assert x in g.Anc(parent) && parent in after;
      }
    }
  }

  /** i is on no cycle of dependencies: none of its other ancestors has it as an ancestor. */
  ghost predicate OnNoCycle(g: Graph, i: nat) {
    forall p: nat :: p in g.Anc(i) - {i} ==> i !in g.Anc(p)
  }

  /** The ancestors of the reduced parents are exactly i's other ancestors, unless i is on a cycle. */
  lemma ReducedParentsExact(g: Graph, i: nat, parents: set<nat>)
    requires WellFormed(g) && i in g.used
    requires parents <= g.Anc(i) - {i} && Covers(g, parents, g.Anc(i) - {i})
    ensures CoversExactly(g, parents, g.Anc(i) - {i}) <==> OnNoCycle(g, i)
  {
    if OnNoCycle(g, i) {
      forall x: nat ensures Covered(g, parents, x) <==> x in g.Anc(i) - {i} {
        if Covered(g, parents, x) {
          var p :| p in parents && x in g.Anc(p);
        }
      }
    } else {
      var p: nat :| p in g.Anc(i) - {i} && i in g.Anc(p);
      assert Covered(g, parents, p);
      var q :| q in parents && p in g.Anc(q);
      assert i in g.Anc(q);
      assert Covered(g, parents, i);
    }
  }

  // ---------------------------------------------------------------- connectedness

  /** One is an ancestor of the other. */
  predicate Related(g: Graph, a: nat, b: nat) {
    a in g.Anc(b) || b in g.Anc(a)
  }

  ghost predicate Severed(g: Graph, a: set<nat>, b: set<nat>) {
    forall x: nat, y: nat :: x in a && y in b ==> !Related(g, x, y)
  }

  /** s cannot be cut into two nonempty unrelated parts. */
  ghost predicate Connected(g: Graph, s: set<nat>) {
    forall a: set<nat> :: a <= s && Severed(g, a, s - a) ==> a == {} || a == s
  }

  lemma SingletonConnected(g: Graph, x: nat)
    ensures Connected(g, {x})
  {
    forall a: set<nat> | a <= {x} ensures a == {} || a == {x} {
      if x in a {
        assert a == {x};
      }
    }
  }

  lemma OutsideOf(a: set<nat>, core: set<nat>, bigger: set<nat>, y: nat)
    requires a * core == {} && core <= bigger && y in core
    ensures y in bigger - a
  {
    assert y !in a * core;
  }

  /** x is related to a member of s. */
  ghost predicate Touches(g: Graph, s: set<nat>, x: nat) {
    exists y: nat :: y in s && Related(g, x, y)
  }

  /** Adding neighbours to a connected set keeps it connected. */
  lemma ConnectedGrows(g: Graph, core: set<nat>, bigger: set<nat>)
    requires Connected(g, core) && core <= bigger
    requires forall x: nat {:trigger Touches(g, core, x)} :: x in bigger - core ==> Touches(g, core, x)
    ensures Connected(g, bigger)
  {
    forall a: set<nat> | a <= bigger && Severed(g, a, bigger - a) ensures a == {} || a == bigger {
      var a' := a * core;
      assert Severed(g, a', core - a');
      if a' == {} {
        if x: nat :| x in a {
          assert x !in a' && Touches(g, core, x);
          var y :| y in core && Related(g, x, y);
          OutsideOf(a, core, bigger, y);
        }
      } else {
        forall x: nat | x in bigger ensures x in a {
          if x !in a {
            assert a' == core && Touches(g, core, x);
            var y :| y in core && Related(g, x, y);
            assert y in a' && Related(g, y, x);
            assert false;
          }
        }
      }
    }
  }

  /** Two connected sets with an edge between them form a connected set. */
  lemma ConnectedUnion(g: Graph, a: set<nat>, b: set<nat>, x: nat, y: nat)
    requires Connected(g, a) && Connected(g, b) && x in a && y in b && Related(g, x, y)
    ensures Connected(g, a + b)
  {
    var s := a + b;
    forall c: set<nat> | c <= s && Severed(g, c, s - c) ensures c == {} || c == s {
      assert Severed(g, c * a, a - c * a);
      assert Severed(g, c * b, b - c * b);
      assert c == (c * a) + (c * b);
      assert x in c && y !in c ==> Related(g, x, y) && y in s - c;
      assert y in c && x !in c ==> Related(g, y, x) && x in s - c;
    }
  }

  ghost predicate IsFirst(s: set<nat>, x: nat) {
    x in s && forall y <- s :: x <= y
  }

  /** The least member of a nonempty set (SetType::First). */
  method First(s: set<nat>, n: nat) returns (f: nat)
    requires s != {} && forall x <- s :: x < n
    ensures IsFirst(s, f)
  {
    f := 0;
    while f !in s
      invariant forall x <- s :: f <= x
      decreases n - f
    {
      var x :| x in s;
      f := f + 1;
    }
  }

  /** The connected component of todo that contains its first transaction. */
  method FindConnectedComponent(g: Graph, todo: set<nat>) returns (ret: set<nat>)
    requires WellFormed(g) && todo <= g.used
    ensures ret <= todo && (todo != {} ==> ret != {})
    ensures forall x: nat :: IsFirst(todo, x) ==> x in ret
    ensures Connected(g, ret) && Severed(g, ret, todo - ret)
  {
    if todo == {} {
      return {};
    }
    var first := First(todo, |g.entries|);
    var toAdd := {first};
    ret := {};
    var more := true;
    ghost var core := {first};
    SingletonConnected(g, first);
    while more
      invariant Searching(g, todo, first, core, ret, toAdd)
      invariant !more ==> toAdd == {} && ret == core
      decreases |todo - ret|, more
    {
      var before := ret;
      ret := AddNeighbours(g, todo, before, toAdd);
      RoundGrows(g, todo, first, core, toAdd, before, ret);
      toAdd := ret - before;
      core := ret;
      more := toAdd != {};
    }
    SearchDone(g, todo, first, ret);
  }

  lemma SearchDone(g: Graph, todo: set<nat>, first: nat, ret: set<nat>)
    requires Searching(g, todo, first, ret, ret, {})
    ensures ret <= todo && first in ret && Connected(g, ret) && Severed(g, ret, todo - ret)
  {
    assert ret - {} == ret;
  }

  /** State of the component search: core is connected, and only toAdd has unexplored relations. */
  ghost predicate Searching(g: Graph, todo: set<nat>, first: nat, core: set<nat>, ret: set<nat>, toAdd: set<nat>) {
    && core <= todo && toAdd <= core && first in core
    && (if ret == {} then core == toAdd else ret == core)
    && Connected(g, core) && Severed(g, core - toAdd, todo - core)
  }

  /** ret is before together with everything in todo related to a member of toAdd. */
  ghost predicate GrownBy(g: Graph, todo: set<nat>, toAdd: set<nat>, before: set<nat>, ret: set<nat>) {
    forall x: nat :: GrownAt(g, todo, toAdd, before, ret, x)
  }

  ghost predicate GrownAt(g: Graph, todo: set<nat>, toAdd: set<nat>, before: set<nat>, ret: set<nat>, x: nat) {
    x in todo ==> (x in ret <==> x in before || Touches(g, toAdd, x))
  }

  lemma RoundConnected(g: Graph, todo: set<nat>, core: set<nat>, toAdd: set<nat>, before: set<nat>, ret: set<nat>)
    requires Reflexive(g) && todo <= g.used
    requires before <= core <= todo && toAdd <= core && before <= ret <= todo
    requires if before == {} then core == toAdd else before == core
    requires Connected(g, core) && GrownBy(g, todo, toAdd, before, ret)
    ensures core <= ret && Connected(g, ret)
  {
    forall x: nat | x in core ensures x in ret {
      assert GrownAt(g, todo, toAdd, before, ret, x);
      if before == {} { assert Related(g, x, x) && Touches(g, toAdd, x); }
    }
    forall x: nat {:trigger Touches(g, core, x)} | x in ret - core ensures Touches(g, core, x) {
      assert GrownAt(g, todo, toAdd, before, ret, x);
      var y :| y in toAdd && Related(g, x, y);
      assert y in core;
    }
    ConnectedGrows(g, core, ret);
  }

  lemma RoundGrows(g: Graph, todo: set<nat>, first: nat, core: set<nat>, toAdd: set<nat>, before: set<nat>, ret: set<nat>)
    requires Reflexive(g) && todo <= g.used && before <= ret <= todo
    requires Searching(g, todo, first, core, before, toAdd)
    requires GrownBy(g, todo, toAdd, before, ret)
    ensures Searching(g, todo, first, ret, ret, ret - before)
    ensures ret - before != {} ==> |todo - ret| < |todo - before|
    ensures ret - before == {} ==> ret == before
  {
    RoundConnected(g, todo, core, toAdd, before, ret);
    StillSevered(g, todo, core, toAdd, before, ret);
    assert ret - (ret - before) == before;
    if ret - before != {} {
      var x :| x in ret - before;
      assert x in todo - before && x !in todo - ret;
      Shrinks(todo - ret, todo - before);
    }
  }

  lemma StillSevered(g: Graph, todo: set<nat>, core: set<nat>, toAdd: set<nat>, before: set<nat>, ret: set<nat>)
    requires toAdd <= core && core <= ret <= todo && (before == core || before == {})
    requires Severed(g, core - toAdd, todo - core)
    requires GrownBy(g, todo, toAdd, before, ret)
    ensures Severed(g, before, todo - ret)
  {
    forall x: nat, y: nat | x in before && y in todo - ret ensures !Related(g, x, y) {
      assert GrownAt(g, todo, toAdd, before, ret, y);
      assert !Touches(g, toAdd, y);
      if x in toAdd {
        assert !Related(g, y, x);
      } else {
        assert x in core - toAdd && y in todo - core;
      }
    }
  }

  /** One round of the component search: everything in todo related to a member of toAdd. */
  method AddNeighbours(g: Graph, todo: set<nat>, before: set<nat>, toAdd: set<nat>) returns (ret: set<nat>)
    requires WellFormed(g) && toAdd <= todo <= g.used && before <= todo
    ensures before <= ret <= todo
    ensures GrownBy(g, todo, toAdd, before, ret)
  {
    ret := before;
    assert Below(toAdd, 0) == {};
    for add := 0 to |g.entries|
      invariant before <= ret
      invariant GrownBy(g, todo, Below(toAdd, add), before, ret)
    {
      ghost var ret0 := ret;
      if add in toAdd {
        ret := ret + g.Desc(add);
        ret := ret + g.Anc(add);
      }
      TouchStep(g, todo, toAdd, add, before, ret0, ret);
    }
    assert Below(toAdd, |g.entries|) == toAdd;
    forall x: nat ensures GrownAt(g, todo, toAdd, before, ret * todo, x) {
      assert GrownAt(g, todo, toAdd, before, ret, x);
    }
    ret := ret * todo;
  }

  lemma TouchStep(g: Graph, todo: set<nat>, toAdd: set<nat>, add: nat, before: set<nat>, ret0: set<nat>, ret: set<nat>)
    requires Inverse(g) && toAdd <= todo <= g.used
    requires GrownBy(g, todo, Below(toAdd, add), before, ret0)
    requires ret == if add in toAdd then ret0 + g.Desc(add) + g.Anc(add) else ret0
    ensures GrownBy(g, todo, Below(toAdd, add + 1), before, ret)
  {
    var b, b' := Below(toAdd, add), Below(toAdd, add + 1);
    forall x: nat ensures GrownAt(g, todo, b', before, ret, x) {
      assert GrownAt(g, todo, b, before, ret0, x);
      var t := Touches(g, b, x);
      if x !in todo {
      } else if add in toAdd {
        assert b' == b + {add};
        assert Related(g, x, add) <==> x in g.Desc(add) + g.Anc(add);
        assert Touches(g, b', x) <==> t || Related(g, x, add);
      } else {
        assert b' == b;
      }
    }
  }

  /** The members of s below n. */
  ghost function Below(s: set<nat>, n: nat): set<nat> {
    set p | p in s && p < n
  }

  lemma Shrinks(a: set<nat>, b: set<nat>)
    requires a < b
    ensures |a| < |b|
  {
    assert b == a + (b - a);
    assert b - a != {};
  }

  lemma BelowStep(s: set<nat>, n: nat)
    ensures Below(s, n + 1) == if n in s then Below(s, n) + {n} else Below(s, n)
  {
  }

  lemma BelowAll(s: set<nat>, n: nat)
    requires forall i <- s :: i < n
    ensures Below(s, n) == s && Below(s, 0) == {}
  {
  }

  lemma ImageWithin(mapping: seq<nat>, a: set<nat>, b: set<nat>)
    requires a <= b
    ensures Image(mapping, a) <= Image(mapping, b)
    ensures forall i <- a :: i < |mapping| ==> mapping[i] in Image(mapping, b)
  {
  }

  /** SetType::Fill(n): the positions below n. */
  function Fill(n: nat): (s: set<nat>)
    ensures forall i: nat :: i in s <==> i < n
  {
    if n == 0 then {} else Fill(n - 1) + {n - 1}
  }

  /** g' is g with one more transaction, unrelated to all others. */
  ghost predicate TransactionAdded(g: Graph, g': Graph, idx: nat, feerate: FeeFrac) {
    && idx !in g.used && g'.used == g.used + {idx} && idx < |g'.entries|
    && |g'.entries| == (if idx == |g.entries| then |g.entries| + 1 else |g.entries|)
    && forall i: nat :: i < |g'.entries| ==> g'.entries[i] == if i == idx then Entry(feerate, {idx}, {idx}) else EntryAt(g.entries, i)
  }

  ghost function EntryAt(es: seq<Entry>, i: nat): Entry {
    if i < |es| then es[i] else Entry(Empty, {}, {})
  }

  lemma TransactionAddedClosed(g: Graph, g': Graph, idx: nat, feerate: FeeFrac)
    requires WellFormed(g) && TransactionAdded(g, g', idx, feerate)
    ensures WellFormed(g')
    ensures Acyclic(g) ==> Acyclic(g')
  {
    forall i: nat | i in g'.used ensures g'.Anc(i) == (if i == idx then {idx} else g.Anc(i)) && g'.Desc(i) == (if i == idx then {idx} else g.Desc(i)) {
    }
  }

  // ---------------------------------------------------------------- rebuilding from reduced parents

  lemma UnrelatedCopy(g: Graph, h: Graph, mapping: seq<nat>)
    requires WellFormed(g) && InjectiveOn(mapping, g.used) && |mapping| == |g.entries|
    requires h.used == Image(mapping, g.used)
    requires |h.entries| == 0 || |h.entries| - 1 in h.used
    requires forall i: nat :: i in g.used ==>
      mapping[i] < |h.entries| && h.entries[mapping[i]] == Entry(g.entries[i].feerate, {mapping[i]}, {mapping[i]})
    ensures WellFormed(h) && SameRates(g, h, mapping) && AncestryWithin(g, h, mapping)
  {
    forall k: nat | k in h.used ensures h.Anc(k) == {k} && h.Desc(k) == {k} && k < |h.entries| {
    }
  }

  /** The reduced parents recorded for i cover its ancestors, and are its ancestors in h too. */
  ghost predicate EdgeKept(g: Graph, h: Graph, mapping: seq<nat>, ps: set<nat>, i: nat) {
    && i < |mapping| && Covers(g, ps, g.Anc(i) - {i}) && ps <= g.Anc(i) - {i}
    && Image(mapping, ps) <= h.Anc(mapping[i])
  }

  ghost predicate EdgesKept(g: Graph, h: Graph, mapping: seq<nat>, par: map<nat, set<nat>>) {
    forall i: nat :: i in par ==> EdgeKept(g, h, mapping, par[i], i)
  }

  lemma RemapStep(g: Graph, h: Graph, h': Graph, mapping: seq<nat>, i: nat, reduced: set<nat>)
    requires WellFormed(g) && WellFormed(h) && InjectiveOn(mapping, g.used) && |mapping| == |g.entries|
    requires i in g.used && reduced <= g.Anc(i)
    requires SameRates(g, h, mapping) && AncestryWithin(g, h, mapping)
    requires DependenciesAdded(h, h', Image(mapping, reduced), mapping[i])
    ensures SameRates(g, h', mapping) && AncestryWithin(g, h', mapping)
  {
    forall a: nat, b: nat | a in g.used && b in g.used && mapping[b] in h'.Anc(mapping[a]) ensures b in g.Anc(a) {
      RemapStepWithin(g, h, h', mapping, i, reduced, a, b);
    }
  }

  lemma RemapStepEdges(g: Graph, h: Graph, h': Graph, mapping: seq<nat>, i: nat, reduced: set<nat>, par: map<nat, set<nat>>)
    requires WellFormed(h) && h.used == Image(mapping, g.used) && i in g.used && i < |mapping|
    requires Covers(g, reduced, g.Anc(i) - {i}) && reduced <= g.Anc(i) - {i}
    requires Image(mapping, reduced) <= h.used && mapping[i] in h.used
    requires DependenciesAdded(h, h', Image(mapping, reduced), mapping[i])
    requires par.Keys <= g.used && EdgesKept(g, h, mapping, par)
    ensures EdgesKept(g, h', mapping, par[i := reduced])
  {
    AddedReflexive(h, h', Image(mapping, reduced), mapping[i]);
    forall k: nat | k in par && k != i ensures EdgeKept(g, h', mapping, par[k], k) {
      RemapStepEdge(g, h, h', mapping, i, reduced, par[k], k);
    }
    assert EdgeKept(g, h', mapping, reduced, i);
  }

  lemma RemapStepEdge(g: Graph, h: Graph, h': Graph, mapping: seq<nat>, i: nat, reduced: set<nat>, ps: set<nat>, k: nat)
    requires h.used == Image(mapping, g.used) && i < |mapping| && k in g.used && EdgeKept(g, h, mapping, ps, k)
    requires DependenciesAdded(h, h', Image(mapping, reduced), mapping[i])
    ensures EdgeKept(g, h', mapping, ps, k)
  {
    assert mapping[k] in h.used;
    assert h.Anc(mapping[k]) <= h'.Anc(mapping[k]);
  }

  lemma RemapStepWithin(g: Graph, h: Graph, h': Graph, mapping: seq<nat>, i: nat, reduced: set<nat>, a: nat, b: nat)
    requires WellFormed(g) && WellFormed(h) && InjectiveOn(mapping, g.used) && |mapping| == |g.entries|
    requires i in g.used && reduced <= g.Anc(i)
    requires SameRates(g, h, mapping) && AncestryWithin(g, h, mapping)
    requires DependenciesAdded(h, h', Image(mapping, reduced), mapping[i])
    requires a in g.used && b in g.used && mapping[b] in h'.Anc(mapping[a])
    ensures b in g.Anc(a)
  {
    assert mapping[a] in h.used;
    if mapping[b] !in h.Anc(mapping[a]) {
      var q :| q in Image(mapping, reduced) && mapping[b] in h.Anc(q);
      var p: nat :| p in reduced && p < |mapping| && mapping[p] == q;
      assert b in g.Anc(p);
      assert i in g.Anc(a);
      assert p in g.Anc(a);
    }
  }

  /** In an acyclic graph nothing is lost: every ancestor is reached through reduced parents. */
  lemma RemapComplete(g: Graph, h: Graph, mapping: seq<nat>, par: map<nat, set<nat>>)
    requires WellFormed(g) && Acyclic(g) && WellFormed(h) && InjectiveOn(mapping, g.used) && |mapping| == |g.entries|
    requires SameRates(g, h, mapping) && AncestryWithin(g, h, mapping)
    requires par.Keys == g.used && EdgesKept(g, h, mapping, par)
    ensures Isomorphic(g, h, mapping)
  {
    forall i: nat, j: nat | i in g.used && j in g.used && j in g.Anc(i) ensures mapping[j] in h.Anc(mapping[i]) {
      AncestorReached(g, h, mapping, par, i, j);
    }
  }

  lemma {:induction false} AncestorReached(g: Graph, h: Graph, mapping: seq<nat>, par: map<nat, set<nat>>, i: nat, j: nat)
    requires WellFormed(g) && Acyclic(g) && WellFormed(h) && InjectiveOn(mapping, g.used) && |mapping| == |g.entries|
    requires h.used == Image(mapping, g.used)
    requires par.Keys == g.used && EdgesKept(g, h, mapping, par)
    requires i in g.used && j in g.Anc(i)
    ensures mapping[j] in h.Anc(mapping[i])
    decreases |g.Anc(i)|
  {
    assert mapping[i] in h.used;
    if j != i {
      assert EdgeKept(g, h, mapping, par[i], i);
      assert Covered(g, par[i], j);
      var p: nat :| p in par[i] && j in g.Anc(p);
      assert p in g.Anc(i) && i !in g.Anc(p);
      assert g.Anc(p) < g.Anc(i) by { assert i in g.Anc(i); }
      Shrinks(g.Anc(p), g.Anc(i));
      AncestorReached(g, h, mapping, par, p, j);
      assert mapping[p] in Image(mapping, par[i]);
    }
  }

  // ---------------------------------------------------------------- the mutable object

  class DepGraph {
    var entries: seq<Entry>
    var used: set<nat>
    /** SetType::Size(): how many positions a set can hold. */
    const capacity: nat

    function Value(): Graph
      reads this
    {
      Graph(entries, used)
    }

    ghost predicate Valid()
      reads this
    {
      WellFormed(Value()) && |entries| <= capacity
    }

    constructor (capacity: nat)
      ensures Valid() && Value() == Graph([], {}) && this.capacity == capacity
    {
      entries := [];
      used := {};
      this.capacity := capacity;
    }

    /**
     Rebuild g with its transactions moved by mapping, from the reduced parents alone
     (src/cluster_linearize.h:89-111).
     */
    constructor Remap(g: Graph, mapping: seq<nat>, posRange: nat)
      requires WellFormed(g) && |mapping| == |g.entries| && InjectiveOn(mapping, g.used)
      requires forall i <- g.used :: mapping[i] < posRange
      requires posRange == 0 || posRange - 1 in Image(mapping, g.used)
      ensures Valid() && |entries| == posRange
      ensures SameRates(g, Value(), mapping) && AncestryWithin(g, Value(), mapping)
      ensures Acyclic(g) ==> Isomorphic(g, Value(), mapping)
    {
      entries := seq(posRange, _ => Entry(Empty, {}, {}));
      used := {};
      capacity := posRange;
      new;
      CopyUnrelated(g, mapping);
      ghost var par: map<nat, set<nat>> := map[];
      BelowAll(g.used, |g.entries|);
      for i := 0 to |g.entries|
        invariant Valid() && |entries| == posRange
        invariant SameRates(g, Value(), mapping) && AncestryWithin(g, Value(), mapping)
        invariant par.Keys == Below(g.used, i) && EdgesKept(g, Value(), mapping, par)
      {
        BelowStep(g.used, i);
        if i in g.used {
          par := CopyParents(g, mapping, i, par);
        }
      }
      if Acyclic(g) {
        RemapComplete(g, Value(), mapping, par);
      }
    }

    /** Second half of Remap, for one transaction: depend on its reduced parents. */
    method CopyParents(g: Graph, mapping: seq<nat>, i: nat, ghost par: map<nat, set<nat>>) returns (ghost par': map<nat, set<nat>>)
      requires WellFormed(g) && |mapping| == |g.entries| && InjectiveOn(mapping, g.used) && i in g.used
      requires Valid() && SameRates(g, Value(), mapping) && AncestryWithin(g, Value(), mapping)
      requires par.Keys <= g.used && EdgesKept(g, Value(), mapping, par)
      modifies this
      ensures Valid() && |entries| == old(|entries|) && SameRates(g, Value(), mapping) && AncestryWithin(g, Value(), mapping)
      ensures par'.Keys == par.Keys + {i} && EdgesKept(g, Value(), mapping, par')
    {
      var reduced := GetReducedParents(g, i);
      DependOn(g, mapping, i, reduced, par);
      par' := par[i := reduced];
    }

    method DependOn(g: Graph, mapping: seq<nat>, i: nat, reduced: set<nat>, ghost par: map<nat, set<nat>>)
      requires WellFormed(g) && |mapping| == |g.entries| && InjectiveOn(mapping, g.used) && i in g.used
      requires reduced <= g.Anc(i) - {i} && Covers(g, reduced, g.Anc(i) - {i})
      requires Valid() && SameRates(g, Value(), mapping) && AncestryWithin(g, Value(), mapping)
      requires par.Keys <= g.used && EdgesKept(g, Value(), mapping, par)
      modifies this
      ensures Valid() && |entries| == old(|entries|) && SameRates(g, Value(), mapping) && AncestryWithin(g, Value(), mapping)
      ensures EdgesKept(g, Value(), mapping, par[i := reduced])
    {
      ghost var h := Value();
      ImageWithin(mapping, reduced, g.used);
      ImageWithin(mapping, {i}, g.used);
      AddDependencies(Image(mapping, reduced), mapping[i]);
      RemapStep(g, h, Value(), mapping, i, reduced);
      RemapStepEdges(g, h, Value(), mapping, i, reduced, par);
    }

    /** First half of Remap: copy the feerates, with no dependencies yet. */
    method CopyUnrelated(g: Graph, mapping: seq<nat>)
      requires WellFormed(g) && |mapping| == |g.entries| && InjectiveOn(mapping, g.used)
      requires forall i <- g.used :: mapping[i] < |entries|
      requires |entries| == 0 || |entries| - 1 in Image(mapping, g.used)
      requires used == {}
      modifies this
      ensures |entries| == |old(entries)|
      ensures WellFormed(Value()) && SameRates(g, Value(), mapping) && AncestryWithin(g, Value(), mapping)
    {
      for i := 0 to |g.entries|
        invariant |entries| == |old(entries)| && used == Image(mapping, Below(g.used, i))
        invariant forall j: nat :: j in g.used && j < i ==> entries[mapping[j]] == Entry(g.entries[j].feerate, {mapping[j]}, {mapping[j]})
      {
        BelowStep(g.used, i);
        if i in g.used {
          var idx := mapping[i];
          entries := entries[idx := Entry(g.entries[i].feerate, {idx}, {idx})];
          used := used + {idx};
        }
      }
      BelowAll(g.used, |g.entries|);
      UnrelatedCopy(g, Value(), mapping);
    }

    /** Add an unconnected transaction in the first free position. */
    method AddTransaction(feerate: FeeFrac) returns (idx: nat)
      requires Valid() && exists i: nat :: i < capacity && i !in used
      modifies this
      ensures Valid()
      ensures IsFirst(Fill(capacity) - old(used), idx)
      ensures TransactionAdded(old(Value()), Value(), idx, feerate)
      ensures Acyclic(old(Value())) ==> Acyclic(Value())
    {
      ghost var k: nat :| k < capacity && k !in used;
      var free := Fill(capacity) - used;
      assert k in free;
      idx := First(free, capacity);
      assert |entries| !in used;
      assert |entries| < capacity ==> |entries| in free;
      if idx == |entries| {
        entries := entries + [Entry(feerate, {idx}, {idx})];
      } else {
        entries := entries[idx := Entry(feerate, {idx}, {idx})];
      }
      used := used + {idx};
      TransactionAddedClosed(old(Value()), Value(), idx, feerate);
    }

    /** Remove positions; an ancestor of a removed transaction stays an ancestor of its descendants. */
    method RemoveTransactions(del: set<nat>)
      requires Valid()
      modifies this
      ensures Valid()
      ensures used == old(used) - del
      ensures |entries| <= |old(entries)|
      ensures forall i <- used :: entries[i].feerate == old(entries)[i].feerate
      ensures forall i <- used :: Value().Anc(i) == old(Value()).Anc(i) - del
      ensures forall i <- used :: Value().Desc(i) == old(Value()).Desc(i) - del
      ensures Acyclic(old(Value())) ==> Acyclic(Value())
    {
      used := used - del;
      while entries != [] && |entries| - 1 !in used
        invariant used == old(used) - del
        invariant |entries| <= |old(entries)| && entries == old(entries)[..|entries|]
        invariant forall i <- used :: i < |entries|
      {
        entries := entries[..|entries| - 1];
      }
      ghost var kept := entries;
      for k := 0 to |entries|
        invariant |entries| == |kept| && used == old(used) - del
        invariant forall i :: 0 <= i < |kept| ==>
          entries[i] == if i < k then Entry(kept[i].feerate, kept[i].ancestors * used, kept[i].descendants * used) else kept[i]
      {
        var e := entries[k];
        entries := entries[k := e.(ancestors := e.ancestors * used, descendants := e.descendants * used)];
      }
    }

    /** Make every member of parents an ancestor of child. */
    method AddDependencies(parents: set<nat>, child: nat)
      requires Valid() && child in used && parents <= used
      modifies this
      ensures Valid()
      ensures DependenciesAdded(old(Value()), Value(), parents, child)
    {
      ghost var g := Value();
      var gained := AncestorsGained(Value(), parents, child);
      if gained == {} {
        NothingGained(g, parents, child);
        return;
      }
      var childDesc := entries[child].descendants;
      AddToDescendants(gained, childDesc);
      assert entries[child].descendants == childDesc;
      AddToAncestors(childDesc, gained);
      GainedIsAdded(g, Value(), parents, child, gained);
      DependenciesAddedClosed(g, Value(), parents, child);
    }

    method AddToDescendants(to: set<nat>, more: set<nat>)
      modifies this`entries
      ensures |entries| == |old(entries)|
      ensures forall i :: 0 <= i < |entries| ==>
        entries[i] == if i in to then old(entries)[i].(descendants := old(entries)[i].descendants + more) else old(entries)[i]
    {
      for a := 0 to |entries|
        invariant |entries| == |old(entries)|
        invariant forall i :: 0 <= i < |entries| ==>
          entries[i] == if i < a && i in to then old(entries)[i].(descendants := old(entries)[i].descendants + more) else old(entries)[i]
      {
        if a in to {
          entries := entries[a := entries[a].(descendants := entries[a].descendants + more)];
        }
      }
    }

    method AddToAncestors(to: set<nat>, more: set<nat>)
      modifies this`entries
      ensures |entries| == |old(entries)|
      ensures forall i :: 0 <= i < |entries| ==>
        entries[i] == if i in to then old(entries)[i].(ancestors := old(entries)[i].ancestors + more) else old(entries)[i]
    {
      for d := 0 to |entries|
        invariant |entries| == |old(entries)|
        invariant forall i :: 0 <= i < |entries| ==>
          entries[i] == if i < d && i in to then old(entries)[i].(ancestors := old(entries)[i].ancestors + more) else old(entries)[i]
      {
        if d in to {
          entries := entries[d := entries[d].(ancestors := entries[d].ancestors + more)];
        }
      }
    }
  }

  /** The ancestors of parents that are not yet ancestors of child. */
  method AncestorsGained(g: Graph, parents: set<nat>, child: nat) returns (gained: set<nat>)
    requires WellFormed(g) && child in g.used && parents <= g.used
    ensures gained == AncOf(g, parents) - g.Anc(child)
  {
    gained := {};
    ghost var ps := parents - g.Anc(child);
    for par := 0 to |g.entries|
      invariant forall a: nat :: a in gained <==> Covered(g, Below(ps, par), a)
    {
      ghost var gained0 := gained;
      if par in parents - g.Anc(child) {
        gained := gained + g.Anc(par);
      }
      forall a: nat ensures a in gained <==> Covered(g, Below(ps, par + 1), a) {
        assert a in gained0 <==> Covered(g, Below(ps, par), a);
        assert Below(ps, par + 1) == if par in ps then Below(ps, par) + {par} else Below(ps, par);
      }
    }
    assert Below(ps, |g.entries|) == ps;
    forall a: nat | a !in g.Anc(child) ensures a in gained <==> a in AncOf(g, parents) {
      assert a in gained <==> Covered(g, ps, a);
      if a in AncOf(g, parents) {
        var p :| p in parents && a in g.Anc(p);
        assert p in ps;
      }
    }
    gained := gained - g.Anc(child);
  }

  lemma NothingGained(g: Graph, parents: set<nat>, child: nat)
    requires WellFormed(g) && child in g.used && parents <= g.used
    requires AncOf(g, parents) - g.Anc(child) == {}
    ensures DependenciesAdded(g, g, parents, child)
  {
    NewAncestors(g, parents, child, {});
  }

  lemma GainedIsAdded(g: Graph, g': Graph, parents: set<nat>, child: nat, gained: set<nat>)
    requires WellFormed(g) && child in g.used && parents <= g.used
    requires gained == AncOf(g, parents) - g.Anc(child)
    requires g'.used == g.used && |g'.entries| == |g.entries|
    requires forall i :: 0 <= i < |g.entries| ==> g'.entries[i] == Entry(g.entries[i].feerate,
      if i in g.Desc(child) then g.entries[i].ancestors + gained else g.entries[i].ancestors,
      if i in gained then g.entries[i].descendants + g.Desc(child) else g.entries[i].descendants)
    ensures DependenciesAdded(g, g', parents, child)
  {
    NewAncestors(g, parents, child, gained);
    forall i: nat | i in g.used
      ensures g'.Anc(i) == if child in g.Anc(i) then g.Anc(i) + AncOf(g, parents) else g.Anc(i)
    {
      assert child in g.Anc(i) <==> i in g.Desc(child);
    }
    forall i: nat | i in g.used
      ensures g'.Desc(i) == if i in AncOf(g, parents) then g.Desc(i) + g.Desc(child) else g.Desc(i)
    {
    }
  }

  /** Only ancestors of parents that child lacks need to be recorded. */
  lemma NewAncestors(g: Graph, parents: set<nat>, child: nat, gained: set<nat>)
    requires WellFormed(g) && child in g.used && parents <= g.used
    requires gained == AncOf(g, parents) - g.Anc(child)
    ensures forall i: nat {:trigger g.Anc(i)} :: i in g.used && child in g.Anc(i) ==> g.Anc(i) + gained == g.Anc(i) + AncOf(g, parents)
    ensures forall i: nat {:trigger g.Desc(i)} :: i in g.used && i in AncOf(g, parents) && i !in gained ==> g.Desc(child) <= g.Desc(i)
  {
    forall i: nat | i in g.used && i in AncOf(g, parents) && i !in gained ensures g.Desc(child) <= g.Desc(i) {
      assert i in g.Anc(child);
      forall d: nat | d in g.Desc(child) ensures d in g.Desc(i) {
        assert child in g.Anc(d);
        assert i in g.Anc(d);
      }
    }
  }
}
