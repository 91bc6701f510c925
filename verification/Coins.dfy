/**
 The layered coin cache (CCoinsViewCache, src/coins.cpp) as objects stacked on a store.
 */
module Coins {
  import opened Options
  import opened CoinMaps
  import opened CoinsViews

  const OP_RETURN: nat := 0x6a
  const MAX_SCRIPT_SIZE: nat := 10000

  predicate IsUnspendable(script: Script) {
    (|script| > 0 && script[0] == OP_RETURN) || |script| > MAX_SCRIPT_SIZE
  }

  /** The bottom of the stack: a plain map. */
  class CoinsStore {
    var coins: map<OutPoint, Coin>

    constructor (initial: map<OutPoint, Coin>)
      ensures coins == initial
    {
      coins := initial;
    }

    /** CCoinsViewDB::BatchWrite for one entry: spent coins are erased, others written. */
    method WriteEntry(k: OutPoint, s: Slot)
      modifies this
      ensures ChangedAt(old(coins), k, Store(s, Get(old(coins), k)), coins)
    {
      if s.isDirty {
        coins := if s.coin.IsSpent() then coins - {k} else coins[k := s.coin];
      }
    }
  }

  class CoinsViewCache {
    /** The cache below, or null if this one is directly on the store. */
    const base: CoinsViewCache?
    const store: CoinsStore
    var cacheCoins: CoinMap
    var cachedCoinsUsage: int
    /** The flagged entries in list order. */
    ghost var order: seq<OutPoint>
    ghost const depth: nat
    ghost const Repr: set<object>

    /** The list and the usage counter are right. */
    ghost predicate Own()
      reads this
    {
      Threaded(cacheCoins, order) && cachedCoinsUsage == UsageOf(Slots(cacheCoins))
    }

    ghost predicate Stacked() {
      && this in Repr && store in Repr
      && (base != null ==>
          && base in Repr && base.Repr <= Repr && this !in base.Repr && base.store == store && base.depth < depth)
    }

    ghost function BaseView(): View
      reads Repr, store
      decreases depth, 0
    {
      if base != null && base.depth < depth && base in Repr && base.Repr <= Repr && base.store == store then base.View() else Unspent(store.coins)
    }

    /** The unspent coins as seen through this cache. */
    ghost function View(): View
      reads this, Repr, store
      decreases depth, 1
    {
      LookUp(Slots(cacheCoins), BaseView())
    }

    ghost predicate Valid()
      reads this, Repr, store
      decreases depth
    {
      && Stacked() && (base != null ==> base.Valid())
      && Own() && Consistent(Slots(cacheCoins), BaseView())
    }

    /** A cache directly on a store. */
    constructor OnStore(s: CoinsStore)
      ensures Valid() && store == s && base == null && Repr == {this, s} && fresh(this) && View() == Unspent(s.coins)
    {
      base := null;
      store := s;
      cacheCoins, cachedCoinsUsage, order := EmptyMap, 0, [];
      depth := 0;
      Repr := {this, s};
      new;
      ThreadedEmpty();
      EmptyChild(BaseView());
    }

    /** A cache on top of another cache. */
    constructor OnCache(b: CoinsViewCache)
      requires b.Valid()
      ensures Valid() && base == b && store == b.store && Repr == {this} + b.Repr && fresh(this) && View() == b.View()
    {
      base := b;
      store := b.store;
      cacheCoins, cachedCoinsUsage, order := EmptyMap, 0, [];
      depth := b.depth + 1;
      Repr := {this} + b.Repr;
      new;
      ThreadedEmpty();
      EmptyChild(BaseView());
    }

    // -------------------------------------------------------------- lookups

    /** base->GetCoin. A store may hand out spent coins, a cache never does. */
    method BaseGetCoin(k: OutPoint) returns (coin: Option<Coin>)
      requires Stacked() && (base != null ==> base.Valid())
      modifies if base == null then {} else base.Repr
      ensures base != null ==> base.Valid()
      ensures BaseView() == old(BaseView())
      ensures coin.Some? <==> k in BaseView() || (base == null && k in store.coins)
      ensures coin.Some? ==> if coin.value.IsSpent() then k !in BaseView() else k in BaseView() && BaseView()[k] == coin.value
      decreases depth, 0
    {
      if base != null {
        coin := base.GetCoin(k);
      } else {
        coin := Get(store.coins, k);
      }
    }

    /** Make sure the entry of k is cached if the base has one. */
    method FetchCoin(k: OutPoint) returns (found: bool)
      requires Valid()
      modifies Repr
      ensures Valid() && View() == old(View())
      ensures found <==> k in cacheCoins.coins
      ensures found <==> k in old(cacheCoins.coins) || k in View() || (base == null && k in old(store.coins))
      ensures k in old(cacheCoins.coins) ==> cacheCoins == old(cacheCoins)
      ensures k !in old(cacheCoins.coins) ==> Fetched(old(Slots(cacheCoins)), BaseView(), k, found, Slots(cacheCoins))
      ensures BaseView() == old(BaseView())
      decreases depth, 1
    {
      if k in cacheCoins.coins {
        return true;
      }
      ghost var c := cacheCoins;
      cacheCoins := TryEmplace(cacheCoins, k);
      var coin := BaseGetCoin(k);
      if coin.Some? {
        FillFetched(k, coin.value, c);
      } else {
        DropFetched(k, c);
      }
      found := coin.Some?;
    }

    /** The base has an entry for the new entry of k. */
    method FillFetched(k: OutPoint, coin: Coin, ghost c: CoinMap)
      requires Stacked() && (base != null ==> base.Valid())
      requires k !in c.coins && cacheCoins == TryEmplace(c, k)
      requires Threaded(c, order) && cachedCoinsUsage == UsageOf(Slots(c)) && Consistent(Slots(c), BaseView())
      requires if coin.IsSpent() then k !in BaseView() else k in BaseView() && BaseView()[k] == coin
      modifies this
      ensures Valid() && k in cacheCoins.coins && View() == LookUp(Slots(c), old(BaseView()))
      ensures BaseView() == old(BaseView()) && Fetched(Slots(c), BaseView(), k, true, Slots(cacheCoins))
    {
      ghost var below := BaseView();
      FillEntry(k, coin, c);
      assert BaseView() == below;
      FetchConsistent(Slots(c), below, k, Slot(coin, false, coin.IsSpent()));
    }

    /** The base has no entry for the new entry of k: erase it again. */
    method DropFetched(k: OutPoint, ghost c: CoinMap)
      requires Stacked() && (base != null ==> base.Valid())
      requires k !in c.coins && cacheCoins == TryEmplace(c, k)
      requires Threaded(c, order) && cachedCoinsUsage == UsageOf(Slots(c)) && Consistent(Slots(c), BaseView())
      requires k !in BaseView()
      modifies this
      ensures Valid() && cacheCoins == c && View() == LookUp(Slots(c), old(BaseView())) && k !in View() && BaseView() == old(BaseView())
    {
      EraseNew(c, k);
      cacheCoins := Erase(cacheCoins, k);
      NotFound(Slots(c), BaseView(), k);
    }

    /** Fill a new entry with a coin from the base. */
    method FillEntry(k: OutPoint, coin: Coin, ghost c: CoinMap)
      requires k !in c.coins && cacheCoins == TryEmplace(c, k)
      requires Threaded(c, order) && cachedCoinsUsage == UsageOf(Slots(c))
      modifies this
      ensures Own() && k in cacheCoins.coins && Slots(cacheCoins) == Slots(c)[k := Slot(coin, false, coin.IsSpent())]
    {
      Filled(c, order, k, coin);
      cacheCoins := SetCoin(cacheCoins, k, coin);
      cachedCoinsUsage := cachedCoinsUsage + coin.DynamicMemoryUsage();
      if coin.IsSpent() {
        SetFlags(k, false, true);
        SetTwice(Slots(c), k, Slot(coin, false, false), Slot(coin, false, true));
      }
      UsageInserted(Slots(c), k, Slot(coin, false, coin.IsSpent()));
      assert k in Slots(cacheCoins);
    }

    method GetCoin(k: OutPoint) returns (coin: Option<Coin>)
      requires Valid()
      modifies Repr
      ensures Valid() && View() == old(View())
      ensures coin == Get(View(), k) && (coin.Some? ==> !coin.value.IsSpent())
      decreases depth, 2
    {
      var found := FetchCoin(k);
      if found && !cacheCoins.coins[k].coin.IsSpent() {
        coin := Some(cacheCoins.coins[k].coin);
      } else {
        coin := None;
      }
      assert k in cacheCoins.coins ==> Slots(cacheCoins)[k].coin == cacheCoins.coins[k].coin;
    }

    method HaveCoin(k: OutPoint) returns (have: bool)
      requires Valid()
      modifies Repr
      ensures Valid() && View() == old(View())
      ensures have <==> k in View()
    {
      var found := FetchCoin(k);
      have := found && !cacheCoins.coins[k].coin.IsSpent();
      assert k in cacheCoins.coins ==> Slots(cacheCoins)[k].coin == cacheCoins.coins[k].coin;
    }

    // -------------------------------------------------------------- changes

    /** Add an unspent coin. Without possibleOverwrite, no unspent coin may be there in the whole view. */
    method AddCoin(k: OutPoint, coin: Coin, possibleOverwrite: bool)
      requires Valid() && !coin.IsSpent() && (!possibleOverwrite ==> k !in View())
      modifies this
      ensures Valid() && BaseView() == old(BaseView())
      ensures View() == if IsUnspendable(coin.scriptPubKey) then old(View()) else old(View())[k := coin]
      ensures Slots(cacheCoins) ==
        if IsUnspendable(coin.scriptPubKey) then old(Slots(cacheCoins))
        else old(Slots(cacheCoins))[k := Slot(coin, true, NothingBelowAdded(old(Slots(cacheCoins)), k, possibleOverwrite))]
    {
      if IsUnspendable(coin.scriptPubKey) {
        return;
      }
      ghost var slots := Slots(cacheCoins);
      AddConsistent(slots, BaseView(), k, coin, possibleOverwrite);
      AddFreshExact(slots, BaseView(), k, possibleOverwrite);
      AddEntry(k, coin, possibleOverwrite);
    }

    method AddEntry(k: OutPoint, coin: Coin, possibleOverwrite: bool)
      requires Own() && (!possibleOverwrite && k in cacheCoins.coins ==> cacheCoins.coins[k].coin.IsSpent())
      modifies this
      ensures Own() && Slots(cacheCoins) == old(Slots(cacheCoins))[k := Slot(coin, true, AddedFresh(old(Slots(cacheCoins)), k, possibleOverwrite))]
    {
      ghost var slots := Slots(cacheCoins);
      EmplaceDiscounted(k);
      assert Slots(cacheCoins)[k] == SlotOf(cacheCoins.coins[k]);
      var setFresh := false;
      if !possibleOverwrite {
        assert cacheCoins.coins[k].coin.IsSpent();
        setFresh := !cacheCoins.coins[k].isDirty;
      }
      StoreCounted(k, coin, setFresh, slots);
    }

    /** Make sure k has an entry, and take the coin in it off the usage. */
    method EmplaceDiscounted(k: OutPoint)
      requires Own()
      modifies this
      ensures Threaded(cacheCoins, order) && k in cacheCoins.coins
      ensures Slots(cacheCoins) == old(if k in Slots(cacheCoins) then Slots(cacheCoins) else Slots(cacheCoins)[k := Slot(NullCoin, false, false)])
      ensures cachedCoinsUsage == UsageOf(old(Slots(cacheCoins)) - {k})
    {
      ghost var slots := Slots(cacheCoins);
      var inserted := k !in cacheCoins.coins;
      TryEmplaceSlots(cacheCoins, k);
      TryEmplaceThreaded(cacheCoins, order, k);
      cacheCoins := TryEmplace(cacheCoins, k);
      if !inserted {
        assert slots[k] == SlotOf(cacheCoins.coins[k]);
        UsageSplit(slots, k);
        cachedCoinsUsage := cachedCoinsUsage - cacheCoins.coins[k].coin.DynamicMemoryUsage();
      } else {
        assert slots - {k} == slots;
      }
    }

    /** Store the coin, flag its entry and add the coin to the usage. */
    method StoreCounted(k: OutPoint, coin: Coin, setFresh: bool, ghost slots: map<OutPoint, Slot>)
      requires k in cacheCoins.coins && Threaded(cacheCoins, order)
      requires Slots(cacheCoins) - {k} == slots - {k} && cachedCoinsUsage == UsageOf(slots - {k})
      modifies this
      ensures Own() && Slots(cacheCoins) == slots[k := Slot(coin, true, old(cacheCoins).coins[k].isFresh || setFresh)]
    {
      ghost var s := Slot(coin, true, cacheCoins.coins[k].isFresh || setFresh);
      UsageSet(slots, k, s);
      SameSlots(Slots(cacheCoins), slots, k, s);
      StoreCoin(k, coin, setFresh);
      cachedCoinsUsage := cachedCoinsUsage + coin.DynamicMemoryUsage();
    }

    /** Store the coin and flag its entry. */
    method StoreCoin(k: OutPoint, coin: Coin, setFresh: bool)
      requires k in cacheCoins.coins && Threaded(cacheCoins, order)
      modifies this
      ensures cachedCoinsUsage == old(cachedCoinsUsage)
      ensures Threaded(cacheCoins, order)
      ensures Slots(cacheCoins) == Slots(old(cacheCoins))[k := Slot(coin, true, old(cacheCoins).coins[k].isFresh || setFresh)]
    {
      SetCoinSlots(cacheCoins, k, coin);
      SetCoinThreaded(cacheCoins, order, k, coin);
      cacheCoins := SetCoin(cacheCoins, k, coin);
      SetFlags(k, true, false);
      if setFresh {
        SetFlags(k, false, true);
      }
    }

    method SetFlags(k: OutPoint, setDirty: bool, setFresh: bool)
      requires k in cacheCoins.coins && Threaded(cacheCoins, order) && (setDirty || setFresh)
      modifies this
      ensures cachedCoinsUsage == old(cachedCoinsUsage)
      ensures Threaded(cacheCoins, order) && k in cacheCoins.coins
      ensures var e := old(cacheCoins).coins[k];
        && SlotOf(cacheCoins.coins[k]) == Slot(e.coin, e.isDirty || setDirty, e.isFresh || setFresh)
        && Slots(cacheCoins) == Slots(old(cacheCoins))[k := Slot(e.coin, e.isDirty || setDirty, e.isFresh || setFresh)]
    {
      AddFlagsSlots(cacheCoins, k, setDirty, setFresh);
      AddFlagsThreaded(cacheCoins, order, k, setDirty, setFresh);
      order := if cacheCoins.coins[k].IsFlagged() then order else order + [k];
      cacheCoins := AddFlags(cacheCoins, k, setDirty, setFresh);
      assert k in Slots(cacheCoins) && Slots(cacheCoins)[k] == SlotOf(cacheCoins.coins[k]);
    }

    method EraseEntry(k: OutPoint)
      requires k in cacheCoins.coins && Threaded(cacheCoins, order)
      modifies this
      ensures cachedCoinsUsage == old(cachedCoinsUsage)
      ensures Threaded(cacheCoins, order) && Slots(cacheCoins) == Slots(old(cacheCoins)) - {k}
    {
      SetCleanSlots(cacheCoins, k);
      if cacheCoins.coins[k].IsFlagged() {
        ghost var j := Position(cacheCoins, order, k);
        SetCleanThreaded(cacheCoins, order, j);
        order := Without(order, j);
      } else {
        EraseUnflagged(cacheCoins, order, k);
      }
      cacheCoins := Erase(cacheCoins, k);
    }

    /** Spend a coin; the result also counts entries that are already spent. */
    method SpendCoin(k: OutPoint) returns (spent: bool, moveout: Coin)
      requires Valid()
      modifies Repr
      ensures Valid() && View() == old(View()) - {k}
      ensures k in old(View()) ==> spent && moveout == old(View())[k]
      ensures spent && k !in old(View()) ==> moveout.IsSpent()
      ensures spent <==> k in old(View()) || k in old(cacheCoins.coins) || (base == null && k in old(store.coins))
      ensures BaseView() == old(BaseView()) && Slots(cacheCoins) == SpentIn(old(Slots(cacheCoins)), BaseView(), k)
    {
      ghost var slots := Slots(cacheCoins);
      var found := FetchCoin(k);
      if k !in slots {
        FetchedSpent(slots, BaseView(), k, found, Slots(cacheCoins));
      }
      if !found {
        return false, NullCoin;
      }
      moveout := cacheCoins.coins[k].coin;
      Shown(k);
      SpendFound(k);
      spent := true;
    }

    /** A cached entry decides what the view shows. */
    lemma Shown(k: OutPoint)
      requires k in cacheCoins.coins
      ensures Get(View(), k) == if cacheCoins.coins[k].coin.IsSpent() then None else Some(cacheCoins.coins[k].coin)
    {
      assert Slots(cacheCoins)[k] == SlotOf(cacheCoins.coins[k]);
    }

    method SpendFound(k: OutPoint)
      requires Valid() && k in cacheCoins.coins
      modifies this
      ensures Valid() && View() == old(View()) - {k}
      ensures BaseView() == old(BaseView()) && k in old(Slots(cacheCoins)) && Slots(cacheCoins) == Spent(old(Slots(cacheCoins)), k)
    {
      ghost var slots, below := Slots(cacheCoins), BaseView();
      SpendEntry(k);
      assert BaseView() == below;
      SpendConsistent(slots, below, k);
    }

    method SpendEntry(k: OutPoint)
      requires Own() && k in cacheCoins.coins
      modifies this
      ensures Own() && k in old(Slots(cacheCoins)) && Slots(cacheCoins) == Spent(old(Slots(cacheCoins)), k)
    {
      ghost var slots := Slots(cacheCoins);
      assert slots[k] == SlotOf(cacheCoins.coins[k]);
      UsageSplit(slots, k);
      cachedCoinsUsage := cachedCoinsUsage - cacheCoins.coins[k].coin.DynamicMemoryUsage();
      if cacheCoins.coins[k].isFresh {
        EraseEntry(k);
      } else {
        SetFlags(k, true, false);
        SetCoinSlots(cacheCoins, k, NullCoin);
        SetCoinThreaded(cacheCoins, order, k, NullCoin);
        cacheCoins := SetCoin(cacheCoins, k, NullCoin);
        assert Slots(cacheCoins) == slots[k := Slot(NullCoin, true, false)];
        UsageSet(slots, k, Slot(NullCoin, true, false));
      }
    }

    /** Drop an entry that is not modified. */
    method Uncache(k: OutPoint)
      requires Valid()
      modifies this
      ensures Valid() && View() == old(View()) && BaseView() == old(BaseView())
      ensures Slots(cacheCoins) == Uncached(old(Slots(cacheCoins)), k)
    {
      if k in cacheCoins.coins && !cacheCoins.coins[k].isDirty && !cacheCoins.coins[k].isFresh {
        ghost var slots, below := Slots(cacheCoins), BaseView();
        assert slots[k] == SlotOf(cacheCoins.coins[k]);
        DropEntry(k);
        assert BaseView() == below;
        UncacheConsistent(slots, below, k);
      } else {
        assert k in cacheCoins.coins ==> Slots(cacheCoins)[k] == SlotOf(cacheCoins.coins[k]);
      }
    }

    /** Erase an entry and take its coin off the usage. */
    method DropEntry(k: OutPoint)
      requires Own() && k in cacheCoins.coins
      modifies this
      ensures Own() && Slots(cacheCoins) == old(Slots(cacheCoins)) - {k}
    {
      ghost var slots := Slots(cacheCoins);
      assert slots[k] == SlotOf(cacheCoins.coins[k]);
      UsageSplit(slots, k);
      cachedCoinsUsage := cachedCoinsUsage - cacheCoins.coins[k].coin.DynamicMemoryUsage();
      EraseEntry(k);
    }

    // -------------------------------------------------------------- writing to the base

    /** The body of the base's BatchWrite loop for one entry of the child. */
    method WriteEntry(k: OutPoint, s: Slot)
      requires Own()
      requires k in cacheCoins.coins && s.isFresh ==> cacheCoins.coins[k].coin.IsSpent()
      modifies this
      ensures Own() && ChangedAt(old(Slots(cacheCoins)), k, WriteUp(s, Get(old(Slots(cacheCoins)), k)), Slots(cacheCoins))
    {
      if !s.isDirty {
        return;
      }
      if k !in cacheCoins.coins {
        if !(s.isFresh && s.coin.IsSpent()) {
          WriteNew(k, s);
        }
      } else {
        // otherwise: "FRESH flag misapplied to coin that exists in parent cache"
        assert !(s.isFresh && !cacheCoins.coins[k].coin.IsSpent());
        WriteOver(k, s);
      }
    }

    method WriteNew(k: OutPoint, s: Slot)
      requires Own() && k !in cacheCoins.coins && s.isDirty
      modifies this
      ensures Own() && ChangedAt(old(Slots(cacheCoins)), k, Some(Slot(s.coin, true, s.isFresh)), Slots(cacheCoins))
    {
      ghost var c := cacheCoins;
      Filled(c, order, k, s.coin);
      cacheCoins := TryEmplace(cacheCoins, k);
      cacheCoins := SetCoin(cacheCoins, k, s.coin);
      cachedCoinsUsage := cachedCoinsUsage + s.coin.DynamicMemoryUsage();
      SetFlags(k, true, false);
      SetTwice(Slots(c), k, Slot(s.coin, false, false), Slot(s.coin, true, false));
      if s.isFresh {
        SetFlags(k, false, true);
        SetTwice(Slots(c), k, Slot(s.coin, true, false), Slot(s.coin, true, true));
      }
      UsageInserted(Slots(c), k, Slot(s.coin, true, s.isFresh));
    }

    method WriteOver(k: OutPoint, s: Slot)
      requires Own() && k in cacheCoins.coins && s.isDirty
      modifies this
      ensures Own() && ChangedAt(old(Slots(cacheCoins)), k, WriteUp(s, Get(old(Slots(cacheCoins)), k)), Slots(cacheCoins))
    {
      ghost var slots := Slots(cacheCoins);
      assert slots[k] == SlotOf(cacheCoins.coins[k]);
      UsageSplit(slots, k);
      cachedCoinsUsage := cachedCoinsUsage - cacheCoins.coins[k].coin.DynamicMemoryUsage();
      if cacheCoins.coins[k].isFresh && s.coin.IsSpent() {
        EraseEntry(k);
      } else {
        StoreCounted(k, s.coin, false, slots);
      }
    }

    /** Entry n of the list, and what follows it. */
    lemma ListEntry(n: nat)
      requires Threaded(cacheCoins, order) && n < |order|
      ensures order[n] in cacheCoins.coins && cacheCoins.coins[order[n]].next == Node(order, n + 1)
      ensures order[n] in Slots(cacheCoins) && Slots(cacheCoins)[order[n]] == SlotOf(cacheCoins.coins[order[n]])
    {
      assert order[n] in order;
      assert Joined(cacheCoins, order, n + 1);
    }

    /** CoinsViewCacheCursor::NextAndMaybeErase, not erasing everything: n is the first entry. */
    method NextAndErase(k: OutPoint) returns (next: Link)
      requires Own() && 0 < |order| && order[0] == k
      modifies this
      ensures Own() && order == old(order)[1..] && next == Node(order, 0)
      ensures k in old(Slots(cacheCoins)) && ChangedAt(old(Slots(cacheCoins)), k, Cleaned(old(Slots(cacheCoins))[k]), Slots(cacheCoins))
    {
      ListEntry(0);
      next := cacheCoins.coins[k].next;
      ghost var slots := Slots(cacheCoins);
      UsageSplit(slots, k);
      SetCleanSlots(cacheCoins, k);
      SetCleanThreaded(cacheCoins, order, 0);
      assert Without(order, 0) == order[1..];
      if cacheCoins.coins[k].coin.IsSpent() {
        cachedCoinsUsage := cachedCoinsUsage - cacheCoins.coins[k].coin.DynamicMemoryUsage();
        cacheCoins := Erase(cacheCoins, k);
      } else {
        UsageSet(slots, k, Slot(cacheCoins.coins[k].coin, false, false));
        cacheCoins := SetClean(cacheCoins, k);
      }
      order := order[1..];
    }

    /** What the child looks like after n entries of its list have been visited. */
    ghost predicate ChildAt(willErase: bool, slots: map<OutPoint, Slot>, all: seq<OutPoint>, n: nat)
      reads this
    {
      && n <= |all| && Unique(all) && Own() && (forall k :: k in all ==> k in slots)
      && if willErase then order == all && Slots(cacheCoins) == slots
         else order == all[n..] && Visited(slots, all, n, Slots(cacheCoins))
    }

    method ChildNext(willErase: bool, k: OutPoint, ghost slots: map<OutPoint, Slot>, ghost all: seq<OutPoint>, ghost n: nat) returns (next: Link)
      requires n < |all| && ChildAt(willErase, slots, all, n) && k == all[n]
      modifies this
      ensures ChildAt(willErase, slots, all, n + 1) && next == Node(all, n + 1)
      ensures willErase ==> cacheCoins == old(cacheCoins)
    {
      assert k in all;
      if willErase {
        ListEntry(n);
        next := cacheCoins.coins[k].next;
      } else {
        ghost var now := Slots(cacheCoins);
        NextIsNew(all, n);
        assert Get(now, k) == Get(slots, k);
        next := NextAndErase(k);
        VisitedStep(slots, all, n, now, Slots(cacheCoins));
      }
    }

    /** The child's current entry is still the one it started with. */
    lemma ChildEntry(willErase: bool, slots: map<OutPoint, Slot>, all: seq<OutPoint>, n: nat)
      requires n < |all| && ChildAt(willErase, slots, all, n)
      ensures all[n] in cacheCoins.coins && SlotOf(cacheCoins.coins[all[n]]) == slots[all[n]]
    {
      assert all[n] in all;
      NextIsNew(all, n);
      assert Get(Slots(cacheCoins), all[n]) == Get(slots, all[n]);
    }

    /** Receive the flagged entries of the cache on top of this one. */
    method BatchWrite(child: CoinsViewCache, willErase: bool)
      requires Valid() && child !in Repr && child.Own() && Consistent(Slots(child.cacheCoins), View())
      modifies this, child
      ensures Valid() && View() == LookUp(old(Slots(child.cacheCoins)), old(View())) && BaseView() == old(BaseView())
      ensures Written(old(Slots(child.cacheCoins)), old(Slots(cacheCoins)), old(child.order), |old(child.order)|, Slots(cacheCoins))
      ensures child.ChildAt(willErase, old(Slots(child.cacheCoins)), old(child.order), |old(child.order)|)
    {
      ghost var slots, all, us, below := Slots(child.cacheCoins), child.order, Slots(cacheCoins), BaseView();
      WriteAll(child, willErase, below);
      assert BaseView() == below;
      WrittenAll(slots, us, below, all, Slots(cacheCoins));
    }

    method WriteAll(child: CoinsViewCache, willErase: bool, ghost below: View)
      requires Own() && child != this && child.Own()
      requires Consistent(Slots(child.cacheCoins), LookUp(Slots(cacheCoins), below))
      modifies this, child
      ensures Own() && child.ChildAt(willErase, old(Slots(child.cacheCoins)), old(child.order), |old(child.order)|)
      ensures Written(old(Slots(child.cacheCoins)), old(Slots(cacheCoins)), old(child.order), |old(child.order)|, Slots(cacheCoins))
    {
      ghost var slots, all, us := Slots(child.cacheCoins), child.order, Slots(cacheCoins);
      assert Joined(child.cacheCoins, all, 0);
      var it := child.cacheCoins.sentinelNext;
      ghost var n := 0;
      while it != Sentinel
        invariant n <= |all| && it == Node(all, n)
        invariant child.ChildAt(willErase, slots, all, n)
        invariant Own() && Written(slots, us, all, n, Slots(cacheCoins))
        decreases |all| - n
      {
        var k := it.outpoint;
        child.ChildEntry(willErase, slots, all, n);
        ghost var now := Slots(cacheCoins);
        NotMisapplied(slots, us, below, all, n, now);
        WriteEntry(k, SlotOf(child.cacheCoins.coins[k]));
        WrittenStep(slots, us, all, n, now, Slots(cacheCoins));
        it := child.ChildNext(willErase, k, slots, all, n);
        n := n + 1;
      }
    }

    /** The store receives the flagged entries of this cache. */
    method StoreBatchWrite(willErase: bool)
      requires Own()
      modifies this, store
      ensures Stored(old(Slots(cacheCoins)), old(store.coins), old(order), |old(order)|, store.coins)
      ensures ChildAt(willErase, old(Slots(cacheCoins)), old(order), |old(order)|)
    {
      ghost var slots, all, us := Slots(cacheCoins), order, store.coins;
      assert Joined(cacheCoins, all, 0);
      var it := cacheCoins.sentinelNext;
      ghost var n := 0;
      while it != Sentinel
        invariant n <= |all| && it == Node(all, n)
        invariant ChildAt(willErase, slots, all, n)
        invariant Stored(slots, us, all, n, store.coins)
        decreases |all| - n
      {
        var k := it.outpoint;
        ChildEntry(willErase, slots, all, n);
        ghost var now := store.coins;
        store.WriteEntry(k, SlotOf(cacheCoins.coins[k]));
        StoredStep(slots, us, all, n, now, store.coins);
        it := ChildNext(willErase, k, slots, all, n);
        n := n + 1;
      }
    }

    /** base->BatchWrite: afterwards the base shows what this cache showed. */
    method WriteToBase(willErase: bool)
      requires Valid()
      modifies this, if base == null then {store} else {base}
      ensures Stacked() && (base != null ==> base.Valid()) && BaseView() == old(View())
      ensures ChildAt(willErase, old(Slots(cacheCoins)), old(order), |old(order)|)
    {
      if base != null {
        base.BatchWrite(this, willErase);
      } else {
        ghost var slots, all, us := Slots(cacheCoins), order, store.coins;
        StoreBatchWrite(willErase);
        StoredAll(slots, us, all, store.coins);
      }
    }

    /** cacheCoins.clear(): every destructor unlinks its entry. */
    method Clear()
      requires Threaded(cacheCoins, order)
      modifies this
      ensures cachedCoinsUsage == old(cachedCoinsUsage)
      ensures cacheCoins == EmptyMap && order == []
    {
      while cacheCoins.coins != map[]
        invariant Threaded(cacheCoins, order) && cachedCoinsUsage == old(cachedCoinsUsage)
        decreases |cacheCoins.coins|
      {
        var k :| k in cacheCoins.coins;
        ghost var keys := cacheCoins.coins.Keys;
        EraseEntry(k);
        ErasedKeys(keys, k, cacheCoins);
      }
      NoneListed(cacheCoins, order);
      assert Joined(cacheCoins, order, 0);
    }

    /** Push all changes to the base and empty this cache. */
    method Flush()
      requires Valid()
      modifies this, if base == null then {store} else {base}
      ensures Valid() && View() == old(View()) && BaseView() == old(View()) && cacheCoins == EmptyMap
    {
      WriteToBase(true);
      Clear();
      cachedCoinsUsage := 0;
      ThreadedEmpty();
      EmptyChild(BaseView());
      assert Slots(cacheCoins) == map[];
    }

    /** Push all changes to the base, keeping unspent coins as clean entries. */
    method Sync()
      requires Valid()
      modifies this, if base == null then {store} else {base}
      ensures Valid() && View() == old(View()) && BaseView() == old(View())
      ensures forall k :: k in cacheCoins.coins ==> !cacheCoins.coins[k].IsFlagged()
      ensures Slots(cacheCoins) ==
        map k | k in old(Slots(cacheCoins)) && !old(Slots(cacheCoins))[k].coin.IsSpent() :: Slot(old(Slots(cacheCoins))[k].coin, false, false)
    {
      ghost var slots, all, below := Slots(cacheCoins), order, BaseView();
      WriteToBase(false);
      VisitedAll(slots, below, all, Slots(cacheCoins));
      // otherwise: "Not all unspent flagged entries were cleared"
      assert Joined(cacheCoins, order, 0);
      assert cacheCoins.sentinelNext == Sentinel;
    }

    // -------------------------------------------------------------- the code's own check

    /** SanityCheck: none of its assertions fails, and what it recounts agrees with what is kept. */
    method SanityCheck() returns (usage: nat, countFlagged: nat, countLinked: nat)
      requires Valid()
      ensures usage == cachedCoinsUsage && countFlagged == countLinked == |order|
    {
      usage, countFlagged := Recount();
      countLinked := 0;
      assert Joined(cacheCoins, order, 0);
      var it := cacheCoins.sentinelNext;
      while it != Sentinel
        invariant countLinked <= |order| && it == Node(order, countLinked)
        decreases |order| - countLinked
      {
        ListEntry(countLinked);
        assert Joined(cacheCoins, order, countLinked) && Joined(cacheCoins, order, countLinked + 1);
        assert GetPrev(cacheCoins, GetNext(cacheCoins, it)) == it;
        assert GetNext(cacheCoins, GetPrev(cacheCoins, it)) == it;
        assert it.outpoint in order && cacheCoins.coins[it.outpoint].IsFlagged();
        it := cacheCoins.coins[it.outpoint].next;
        countLinked := countLinked + 1;
      }
    }

    lemma EntryPermitted(k: OutPoint)
      requires Valid() && k in cacheCoins.coins
      ensures k in Slots(cacheCoins) && Slots(cacheCoins)[k] == SlotOf(cacheCoins.coins[k]) && Permitted(SlotOf(cacheCoins.coins[k]))
    {
      assert SlotOk(Slots(cacheCoins)[k], BaseView(), k);
    }

    /** Visit every entry: each is in a permitted state. */
    method Recount() returns (usage: nat, countFlagged: nat)
      requires Valid()
      ensures usage == cachedCoinsUsage && countFlagged == |order|
    {
      usage, countFlagged := 0, 0;
      var keys := cacheCoins.coins.Keys;
      ghost var slots := Slots(cacheCoins);
      CountAll(cacheCoins, order);
      while keys != {}
        invariant keys <= cacheCoins.coins.Keys
        invariant usage + UsageOf(Restricted(slots, keys)) == cachedCoinsUsage
        invariant countFlagged + |FlaggedIn(slots, keys)| == |order|
        decreases |keys|
      {
        var k :| k in keys;
        var e := cacheCoins.coins[k];
        EntryPermitted(k);
        assert Permitted(SlotOf(e));
        CountOne(slots, keys, k);
        usage := usage + e.coin.DynamicMemoryUsage();
        if e.IsFlagged() {
          countFlagged := countFlagged + 1;
        }
        keys := keys - {k};
      }
      assert Restricted(slots, {}) == map[] && FlaggedIn(slots, {}) == {};
    }
  }

  lemma SameSlots(a: map<OutPoint, Slot>, b: map<OutPoint, Slot>, k: OutPoint, s: Slot)
    requires a - {k} == b - {k}
    ensures a[k := s] == b[k := s]
  {
    assert a[k := s] == (a - {k})[k := s];
    assert b[k := s] == (b - {k})[k := s];
  }

  lemma NoneListed(c: CoinMap, order: seq<OutPoint>)
    requires Threaded(c, order) && c.coins == map[]
    ensures order == []
  {
    OrderSize(order);
    assert Listed(order) == {};
  }

  lemma ErasedKeys(keys: set<OutPoint>, k: OutPoint, c: CoinMap)
    requires k in keys && Slots(c).Keys == keys - {k}
    ensures |c.coins| < |keys|
  {
    assert c.coins.Keys == keys - {k};
    assert |c.coins.Keys| == |c.coins|;
  }

  lemma NotMisapplied(child: map<OutPoint, Slot>, us: map<OutPoint, Slot>, below: View, order: seq<OutPoint>, n: nat, now: map<OutPoint, Slot>)
    requires Consistent(child, LookUp(us, below)) && Unique(order) && n < |order| && Written(child, us, order, n, now)
    ensures order[n] in child && (order[n] in now && child[order[n]].isFresh ==> now[order[n]].coin.IsSpent())
  {
    var k := order[n];
    assert k in order;
    NextIsNew(order, n);
    assert Get(now, k) == Get(us, k);
    if k in us {
      FreshNotMisapplied(child, us, below, k);
    }
  }

  ghost function Listed(order: seq<OutPoint>): set<OutPoint> {
    set k | k in order
  }

  lemma {:induction false} OrderSize(order: seq<OutPoint>)
    requires Unique(order)
    ensures |Listed(order)| == |order|
  {
    if order != [] {
      var n := |order| - 1;
      OrderSize(order[..n]);
      assert order == order[..n] + [order[n]];
      assert Listed(order) == Listed(order[..n]) + {order[n]};
    }
  }

  /** The part of a cache that has not been counted yet. */
  ghost function Restricted(slots: map<OutPoint, Slot>, keys: set<OutPoint>): map<OutPoint, Slot> {
    map k | k in slots && k in keys :: slots[k]
  }

  ghost function FlaggedIn(slots: map<OutPoint, Slot>, keys: set<OutPoint>): set<OutPoint> {
    set k | k in slots && k in keys && (slots[k].isDirty || slots[k].isFresh)
  }

  lemma CountOne(slots: map<OutPoint, Slot>, keys: set<OutPoint>, k: OutPoint)
    requires k in slots && k in keys
    ensures UsageOf(Restricted(slots, keys)) == slots[k].coin.DynamicMemoryUsage() + UsageOf(Restricted(slots, keys - {k}))
    ensures |FlaggedIn(slots, keys)| == |FlaggedIn(slots, keys - {k})| + if slots[k].isDirty || slots[k].isFresh then 1 else 0
  {
    UsageSplit(Restricted(slots, keys), k);
    assert Restricted(slots, keys) - {k} == Restricted(slots, keys - {k});
    if slots[k].isDirty || slots[k].isFresh {
      assert FlaggedIn(slots, keys) == FlaggedIn(slots, keys - {k}) + {k};
    } else {
      assert FlaggedIn(slots, keys) == FlaggedIn(slots, keys - {k});
    }
  }

  lemma CountAll(c: CoinMap, order: seq<OutPoint>)
    requires Threaded(c, order)
    ensures Restricted(Slots(c), c.coins.Keys) == Slots(c) && |FlaggedIn(Slots(c), c.coins.Keys)| == |order|
  {
    OrderSize(order);
    assert FlaggedIn(Slots(c), c.coins.Keys) == Listed(order);
  }

  // ---------------------------------------------------------------- whole runs

  datatype Op =
    | Add(k: OutPoint, coin: Coin, possibleOverwrite: bool)
    | Spend(k: OutPoint)
    | Look(k: OutPoint)
    | Drop(k: OutPoint)
    | SyncAll
    | FlushAll

  /** What an operation means for a plain map. */
  function Plain(view: View, op: Op): View {
    match op
    case Add(k, coin, _) => if IsUnspendable(coin.scriptPubKey) then view else view[k := coin]
    case Spend(k) => view - {k}
    case _ => view
  }

  function PlainRun(view: View, ops: seq<Op>): View
    decreases |ops|
  {
    if ops == [] then view else PlainRun(Plain(view, ops[0]), ops[1..])
  }

  /** What the documentation of AddCoin asks of its callers. */
  predicate Allowed(view: View, op: Op) {
    op.Add? ==> !op.coin.IsSpent() && (!op.possibleOverwrite ==> op.k !in view)
  }

  predicate AllowedRun(view: View, ops: seq<Op>)
    decreases |ops|
  {
    ops != [] ==> Allowed(view, ops[0]) && AllowedRun(Plain(view, ops[0]), ops[1..])
  }

  method Perform(top: CoinsViewCache, op: Op)
    requires top.Valid() && Allowed(top.View(), op)
    modifies top.Repr
    ensures top.Valid() && top.View() == Plain(old(top.View()), op)
  {
    match op
    case Add(k, coin, possibleOverwrite) => top.AddCoin(k, coin, possibleOverwrite);
    case Spend(k) => var _, _ := top.SpendCoin(k);
    case Look(k) => var _ := top.GetCoin(k);
    case Drop(k) => top.Uncache(k);
    case SyncAll => top.Sync();
    case FlushAll => top.Flush();
  }

  /** On a stack of any depth, the top cache behaves like a plain map. */
  method Run(top: CoinsViewCache, ops: seq<Op>)
    requires top.Valid() && AllowedRun(top.View(), ops)
    modifies top.Repr
    ensures top.Valid() && top.View() == PlainRun(old(top.View()), ops)
  {
    ghost var start := top.View();
    for i := 0 to |ops|
      invariant top.Valid() && AllowedRun(top.View(), ops[i..])
      invariant PlainRun(top.View(), ops[i..]) == PlainRun(start, ops)
    {
      assert ops[i..][0] == ops[i] && ops[i..][1..] == ops[i + 1..];
      Perform(top, ops[i]);
    }
  }
}
