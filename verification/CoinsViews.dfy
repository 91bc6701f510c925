/**
 What a cache says about its base, independent of how entries are linked.

 A view is the plain map of unspent coins. A cache on top of a view overrides it; `Consistent` is
 what its DIRTY and FRESH flags promise about the view below.
 */
module CoinsViews {
  import opened Options
  import opened CoinMaps

  type View = map<OutPoint, Coin>

  /** The view of a cache with these slots on top of base. */
  function LookUp(slots: map<OutPoint, Slot>, base: View): View {
    map k | k in slots.Keys + base.Keys && (k in slots ==> !slots[k].coin.IsSpent()) ::
      if k in slots then slots[k].coin else base[k]
  }

  /** The five permitted combinations of spent, DIRTY and FRESH. */
  predicate Permitted(s: Slot) {
    if s.coin.IsSpent() then s.isFresh != s.isDirty else s.isFresh ==> s.isDirty
  }

  /** Below a FRESH entry there is no coin; an entry that is not DIRTY agrees with what is below. */
  ghost predicate SlotOk(s: Slot, base: View, k: OutPoint) {
    && Permitted(s)
    && (s.isFresh ==> k !in base)
    && (!s.isDirty ==> if s.coin.IsSpent() then k !in base else k in base && base[k] == s.coin)
  }

  ghost predicate Consistent(slots: map<OutPoint, Slot>, base: View) {
    forall k :: k in slots ==> SlotOk(slots[k], base, k)
  }

  /** The plain map of a set of stored coins, some of which may be spent. */
  function Unspent(coins: map<OutPoint, Coin>): View {
    map k | k in coins && !coins[k].IsSpent() :: coins[k]
  }

  lemma LookUpSet(slots: map<OutPoint, Slot>, base: View, k: OutPoint, s: Slot)
    ensures LookUp(slots[k := s], base) == if s.coin.IsSpent() then LookUp(slots, base) - {k} else LookUp(slots, base)[k := s.coin]
  {
  }

  lemma NotFound(slots: map<OutPoint, Slot>, base: View, k: OutPoint)
    requires k !in slots && k !in base
    ensures k !in LookUp(slots, base)
  {
  }

  // ---------------------------------------------------------------- the operations

  /** Adding a coin: it is FRESH if it was, or if it may not overwrite and nothing DIRTY is there. */
  function AddedFresh(slots: map<OutPoint, Slot>, k: OutPoint, possibleOverwrite: bool): bool {
    (k in slots && slots[k].isFresh) || (!possibleOverwrite && !(k in slots && slots[k].isDirty))
  }

  lemma AddConsistent(slots: map<OutPoint, Slot>, base: View, k: OutPoint, coin: Coin, possibleOverwrite: bool)
    requires Consistent(slots, base) && !coin.IsSpent() && (!possibleOverwrite ==> k !in LookUp(slots, base))
    ensures var slots' := slots[k := Slot(coin, true, AddedFresh(slots, k, possibleOverwrite))];
      Consistent(slots', base) && LookUp(slots', base) == LookUp(slots, base)[k := coin]
  {
    LookUpSet(slots, base, k, Slot(coin, true, AddedFresh(slots, k, possibleOverwrite)));
  }

  /** Spending a coin that is present in the cache. */
  function Spent(slots: map<OutPoint, Slot>, k: OutPoint): map<OutPoint, Slot>
    requires k in slots
  {
    if slots[k].isFresh then slots - {k} else slots[k := Slot(NullCoin, true, false)]
  }

  lemma SpendConsistent(slots: map<OutPoint, Slot>, base: View, k: OutPoint)
    requires Consistent(slots, base) && k in slots
    ensures Consistent(Spent(slots, k), base) && LookUp(Spent(slots, k), base) == LookUp(slots, base) - {k}
  {
  }

  /** Copying a coin from the view below, or dropping an unmodified entry, changes nothing. */
  lemma FetchConsistent(slots: map<OutPoint, Slot>, base: View, k: OutPoint, s: Slot)
    requires Consistent(slots, base) && k !in slots && SlotOk(s, base, k) && !s.isDirty
    ensures Consistent(slots[k := s], base) && LookUp(slots[k := s], base) == LookUp(slots, base)
  {
  }

  /** The entries after a lookup of k, which had none: if the base has one, there is an unmodified copy of it. */
  ghost predicate Fetched(slots: map<OutPoint, Slot>, base: View, k: OutPoint, found: bool, slots': map<OutPoint, Slot>) {
    if !found then slots' == slots && k !in base
    else
      && k in slots' && slots' == slots[k := slots'[k]]
      && if k in base then slots'[k] == Slot(base[k], false, false)
         else slots'[k].coin.IsSpent() && slots'[k] == Slot(slots'[k].coin, false, true)
  }

  /** The entries after a coin is spent. */
  function SpentIn(slots: map<OutPoint, Slot>, base: View, k: OutPoint): map<OutPoint, Slot> {
    if k in slots then Spent(slots, k) else if k in base then slots[k := Slot(NullCoin, true, false)] else slots
  }

  lemma FetchedSpent(slots: map<OutPoint, Slot>, base: View, k: OutPoint, found: bool, slots': map<OutPoint, Slot>)
    requires k !in slots && Fetched(slots, base, k, found, slots')
    ensures if found then Spent(slots', k) == SpentIn(slots, base, k) else slots' == SpentIn(slots, base, k)
  {
    if found && k !in base {
      assert slots' - {k} == slots;
    }
  }

  /** The entries after one that is not modified is dropped. */
  function Uncached(slots: map<OutPoint, Slot>, k: OutPoint): map<OutPoint, Slot> {
    if k in slots && !slots[k].isDirty && !slots[k].isFresh then slots - {k} else slots
  }

  lemma UncacheConsistent(slots: map<OutPoint, Slot>, base: View, k: OutPoint)
    requires Consistent(slots, base) && k in slots && !slots[k].isDirty
    ensures Consistent(slots - {k}, base) && LookUp(slots - {k}, base) == LookUp(slots, base)
  {
  }

  // ---------------------------------------------------------------- what FRESH is for

  /** No view that these entries can be on top of has a coin at k. */
  ghost predicate NothingBelow(slots: map<OutPoint, Slot>, k: OutPoint) {
    forall base: View {:trigger Consistent(slots, base)} :: Consistent(slots, base) ==> k !in base
  }

  /** The same, when it is also known whether the whole view shows a coin at k. */
  ghost predicate NothingBelowAdded(slots: map<OutPoint, Slot>, k: OutPoint, possibleOverwrite: bool) {
    forall base: View {:trigger Consistent(slots, base)} ::
      Consistent(slots, base) && (!possibleOverwrite ==> k !in LookUp(slots, base)) ==> k !in base
  }

  const SomeCoin := Coin(0, [], 0, false)

  /** If the entry of k leaves it open, there may be a coin below. */
  lemma CoinBelow(slots: map<OutPoint, Slot>, base: View, k: OutPoint, coin: Coin)
    requires Consistent(slots, base) && (k in slots ==> !slots[k].isFresh && slots[k].isDirty)
    ensures Consistent(slots, base[k := coin]) && k in base[k := coin]
    ensures k in slots ==> LookUp(slots, base[k := coin]) == LookUp(slots, base)
  {
  }

  /** An entry is FRESH exactly when nothing can be below it. */
  lemma FreshExact(slots: map<OutPoint, Slot>, base: View, k: OutPoint)
    requires Consistent(slots, base) && k in slots
    ensures slots[k].isFresh <==> NothingBelow(slots, k)
  {
    assert SlotOk(slots[k], base, k);
    if !slots[k].isFresh && slots[k].isDirty {
      CoinBelow(slots, base, k, SomeCoin);
    }
  }

  /** An added coin is FRESH exactly when nothing can be below it. */
  lemma AddFreshExact(slots: map<OutPoint, Slot>, base: View, k: OutPoint, possibleOverwrite: bool)
    requires Consistent(slots, base) && (!possibleOverwrite ==> k !in LookUp(slots, base))
    ensures AddedFresh(slots, k, possibleOverwrite) <==> NothingBelowAdded(slots, k, possibleOverwrite)
  {
    if k in slots {
      assert SlotOk(slots[k], base, k);
    }
    if !AddedFresh(slots, k, possibleOverwrite) && (k in slots ==> slots[k].isDirty) {
      CoinBelow(slots, base, k, SomeCoin);
    }
  }

  /** Spending forgets the entry exactly when nothing can be below it. */
  lemma SpendExact(slots: map<OutPoint, Slot>, base: View, k: OutPoint)
    requires Consistent(slots, base) && k in slots
    ensures Spent(slots, k) == if NothingBelow(slots, k) then slots - {k} else slots[k := Slot(NullCoin, true, false)]
  {
    FreshExact(slots, base, k);
  }

  /** A coin that is added and spent again leaves no trace where there was no entry, or one that nothing can be below. */
  lemma AddThenSpend(slots: map<OutPoint, Slot>, base: View, k: OutPoint, coin: Coin)
    requires Consistent(slots, base) && k !in LookUp(slots, base) && !coin.IsSpent()
    ensures var added := slots[k := Slot(coin, true, AddedFresh(slots, k, false))];
      && (k !in slots ==> Spent(added, k) == slots)
      && (k in slots && !NothingBelow(slots, k) ==> Spent(added, k) == slots[k := Slot(NullCoin, true, false)])
      && (k in slots && NothingBelow(slots, k) ==> Spent(added, k) == slots - {k})
  {
    if k in slots {
      FreshExact(slots, base, k);
      assert SlotOk(slots[k], base, k);
    }
  }

  // ---------------------------------------------------------------- writing to the base

  function Get<V>(m: map<OutPoint, V>, k: OutPoint): Option<V> {
    if k in m then Some(m[k]) else None
  }

  /** What the base's entry becomes when the child writes its entry. */
  function WriteUp(child: Slot, us: Option<Slot>): Option<Slot> {
    if !child.isDirty then us
    else match us
      case None => if child.isFresh && child.coin.IsSpent() then None else Some(Slot(child.coin, true, child.isFresh))
      case Some(u) => if u.isFresh && child.coin.IsSpent() then None else Some(Slot(child.coin, true, u.isFresh))
  }

  /** The base after the first n entries of the child's list have been written. */
  ghost predicate Written(child: map<OutPoint, Slot>, before: map<OutPoint, Slot>, order: seq<OutPoint>, n: nat, after: map<OutPoint, Slot>) {
    n <= |order| && (forall k :: k in order ==> k in child)
    && forall k: OutPoint {:trigger Get(after, k)} ::
      Get(after, k) == if k in order[..n] then WriteUp(child[k], Get(before, k)) else Get(before, k)
  }

  /** The FRESH flag is never misapplied to a coin that exists in the base. */
  lemma FreshNotMisapplied(child: map<OutPoint, Slot>, us: map<OutPoint, Slot>, below: View, k: OutPoint)
    requires Consistent(child, LookUp(us, below)) && k in child && k in us
    ensures child[k].isFresh ==> us[k].coin.IsSpent()
  {
  }

  lemma WriteUpKey(child: map<OutPoint, Slot>, us: map<OutPoint, Slot>, below: View, k: OutPoint)
    requires Consistent(us, below) && Consistent(child, LookUp(us, below)) && k in child && (child[k].isDirty || child[k].isFresh)
    ensures var w := WriteUp(child[k], Get(us, k));
      && (w.Some? ==> SlotOk(w.value, below, k))
      && (if child[k].coin.IsSpent() then (if w.Some? then w.value.coin.IsSpent() else k !in below)
          else w.Some? && w.value.coin == child[k].coin)
  {
    assert SlotOk(child[k], LookUp(us, below), k);
    if k in us {
      assert SlotOk(us[k], below, k);
    }
  }

  /** No view that both caches can be on top of has a coin at k. */
  ghost predicate NothingBelowBoth(child: map<OutPoint, Slot>, us: map<OutPoint, Slot>, k: OutPoint) {
    forall below: View {:trigger Consistent(us, below)} ::
      Consistent(us, below) && Consistent(child, LookUp(us, below)) ==> k !in below
  }

  /** What is written is FRESH, or not kept at all if it is spent, exactly when nothing can be below it. */
  lemma WriteUpExact(child: map<OutPoint, Slot>, us: map<OutPoint, Slot>, below: View, k: OutPoint)
    requires Consistent(us, below) && Consistent(child, LookUp(us, below)) && k in child && child[k].isDirty
    ensures var nothing := NothingBelowBoth(child, us, k);
      WriteUp(child[k], Get(us, k)) == if nothing && child[k].coin.IsSpent() then None else Some(Slot(child[k].coin, true, nothing))
  {
    assert SlotOk(child[k], LookUp(us, below), k);
    if k in us {
      assert SlotOk(us[k], below, k);
      if us[k].isDirty && !us[k].isFresh {
        CoinBelow(us, below, k, SomeCoin);
      }
    } else if !child[k].isFresh {
      CoinBelow(us, below, k, SomeCoin);
      forall j | j in child ensures SlotOk(child[j], LookUp(us, below[k := SomeCoin]), j) {
        assert SlotOk(child[j], LookUp(us, below), j);
      }
    }
  }

  /** Writing all flagged entries gives the base exactly the child's view. */
  lemma WrittenAll(child: map<OutPoint, Slot>, before: map<OutPoint, Slot>, below: View, order: seq<OutPoint>, after: map<OutPoint, Slot>)
    requires Consistent(before, below) && Consistent(child, LookUp(before, below))
    requires forall k :: k in order <==> k in child && (child[k].isDirty || child[k].isFresh)
    requires Written(child, before, order, |order|, after)
    ensures Consistent(after, below) && LookUp(after, below) == LookUp(child, LookUp(before, below))
  {
    assert order[..|order|] == order;
    forall k: OutPoint ensures k in after ==> SlotOk(after[k], below, k)
      ensures Get(LookUp(after, below), k) == Get(LookUp(child, LookUp(before, below)), k)
    {
      var a := Get(after, k);
      if k in order {
        WriteUpKey(child, before, below, k);
      } else {
        assert a == Get(before, k);
        if k in before { assert SlotOk(before[k], below, k); }
        if k in child { assert SlotOk(child[k], LookUp(before, below), k); }
      }
    }
    SameMap(LookUp(after, below), LookUp(child, LookUp(before, below)));
  }

  lemma SameMap<V>(a: map<OutPoint, V>, b: map<OutPoint, V>)
    requires forall k: OutPoint :: Get(a, k) == Get(b, k)
    ensures a == b
  {
    forall k: OutPoint ensures k in a <==> k in b
      ensures k in a && k in b ==> a[k] == b[k]
    {
      assert Get(a, k) == Get(b, k);
    }
  }

  /** What Sync leaves of the child's entry: spent coins are erased, others become clean. */
  function Cleaned(s: Slot): Option<Slot> {
    if s.coin.IsSpent() then None else Some(Slot(s.coin, false, false))
  }

  /** The child after the first n entries of its list have been visited without erasing. */
  ghost predicate Visited(before: map<OutPoint, Slot>, order: seq<OutPoint>, n: nat, after: map<OutPoint, Slot>) {
    n <= |order| && (forall k :: k in order ==> k in before)
    && forall k: OutPoint {:trigger Get(after, k)} ::
      Get(after, k) == if k in order[..n] then Cleaned(before[k]) else Get(before, k)
  }

  /** After Sync the child agrees with its base, and both show the child's old view. */
  lemma VisitedAll(before: map<OutPoint, Slot>, base: View, order: seq<OutPoint>, after: map<OutPoint, Slot>)
    requires Consistent(before, base)
    requires forall k :: k in order <==> k in before && (before[k].isDirty || before[k].isFresh)
    requires Visited(before, order, |order|, after)
    ensures Consistent(after, LookUp(before, base)) && LookUp(after, LookUp(before, base)) == LookUp(before, base)
    ensures after == map k | k in before && !before[k].coin.IsSpent() :: Slot(before[k].coin, false, false)
  {
    assert order[..|order|] == order;
    var view := LookUp(before, base);
    forall k: OutPoint ensures k in after ==> SlotOk(after[k], view, k) && k in view && after[k].coin == view[k] {
      var a := Get(after, k);
      if k in before { assert SlotOk(before[k], base, k); }
    }
    forall k: OutPoint ensures Get(LookUp(after, view), k) == Get(view, k) {
      var a := Get(after, k);
    }
    SameMap(LookUp(after, view), view);
    forall k: OutPoint ensures Get(after, k) == if k in before && !before[k].coin.IsSpent() then Some(Slot(before[k].coin, false, false)) else None {
      if k in before { assert SlotOk(before[k], base, k); }
    }
    SameMap(after, map k | k in before && !before[k].coin.IsSpent() :: Slot(before[k].coin, false, false));
  }

  /** An emptied child shows its base. */
  lemma EmptyChild(base: View)
    ensures Consistent(map[], base) && LookUp(map[], base) == base
  {
  }

  // ---------------------------------------------------------------- a stored map as base

  /** What a plain store holds after the child writes its entry. */
  function Store(child: Slot, stored: Option<Coin>): Option<Coin> {
    if !child.isDirty then stored else if child.coin.IsSpent() then None else Some(child.coin)
  }

  ghost predicate Stored(child: map<OutPoint, Slot>, before: map<OutPoint, Coin>, order: seq<OutPoint>, n: nat, after: map<OutPoint, Coin>) {
    n <= |order| && (forall k :: k in order ==> k in child)
    && forall k: OutPoint {:trigger Get(after, k)} ::
      Get(after, k) == if k in order[..n] then Store(child[k], Get(before, k)) else Get(before, k)
  }

  /** A store that receives all flagged entries shows the child's view, and is given no spent coin to keep. */
  lemma StoredAll(child: map<OutPoint, Slot>, before: map<OutPoint, Coin>, order: seq<OutPoint>, after: map<OutPoint, Coin>)
    requires Consistent(child, Unspent(before))
    requires forall k :: k in order <==> k in child && (child[k].isDirty || child[k].isFresh)
    requires Stored(child, before, order, |order|, after)
    ensures Unspent(after) == LookUp(child, Unspent(before))
    ensures forall k :: k in after && after[k].IsSpent() ==> k in before && before[k] == after[k]
  {
    assert order[..|order|] == order;
    forall k: OutPoint ensures Get(Unspent(after), k) == Get(LookUp(child, Unspent(before)), k) {
      var a := Get(after, k);
      if k in child { assert SlotOk(child[k], Unspent(before), k); }
    }
    forall k | k in after && after[k].IsSpent() ensures k in before && before[k] == after[k] {
      assert Get(after, k) == Some(after[k]);
    }
    SameMap(Unspent(after), LookUp(child, Unspent(before)));
  }

  // ---------------------------------------------------------------- one entry further

  /** slots' differs from slots at most at k, where it holds s. */
  ghost predicate ChangedAt<V>(m: map<OutPoint, V>, k: OutPoint, s: Option<V>, m': map<OutPoint, V>) {
    forall j: OutPoint {:trigger Get(m', j)} :: Get(m', j) == if j == k then s else Get(m, j)
  }

  /** The next entry of a list without repetitions has not been visited. */
  lemma NextIsNew(order: seq<OutPoint>, n: nat)
    requires Unique(order) && n < |order|
    ensures order[n] !in order[..n] && forall k :: k in order[..n + 1] <==> k in order[..n] || k == order[n]
  {
    assert order[..n + 1] == order[..n] + [order[n]];
  }

  lemma WrittenStep(child: map<OutPoint, Slot>, before: map<OutPoint, Slot>, order: seq<OutPoint>, n: nat, us: map<OutPoint, Slot>, us': map<OutPoint, Slot>)
    requires Unique(order) && n < |order| && Written(child, before, order, n, us)
    requires order[n] in child && ChangedAt(us, order[n], WriteUp(child[order[n]], Get(us, order[n])), us')
    ensures Written(child, before, order, n + 1, us')
  {
    NextIsNew(order, n);
    assert Get(us, order[n]) == Get(before, order[n]);
  }

  lemma StoredStep(child: map<OutPoint, Slot>, before: map<OutPoint, Coin>, order: seq<OutPoint>, n: nat, us: map<OutPoint, Coin>, us': map<OutPoint, Coin>)
    requires Unique(order) && n < |order| && Stored(child, before, order, n, us)
    requires order[n] in child && ChangedAt(us, order[n], Store(child[order[n]], Get(us, order[n])), us')
    ensures Stored(child, before, order, n + 1, us')
  {
    NextIsNew(order, n);
    assert Get(us, order[n]) == Get(before, order[n]);
  }

  lemma VisitedStep(before: map<OutPoint, Slot>, order: seq<OutPoint>, n: nat, us: map<OutPoint, Slot>, us': map<OutPoint, Slot>)
    requires Unique(order) && n < |order| && Visited(before, order, n, us)
    requires order[n] in before && ChangedAt(us, order[n], Cleaned(before[order[n]]), us')
    ensures Visited(before, order, n + 1, us')
  {
    NextIsNew(order, n);
  }
}
