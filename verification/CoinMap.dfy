/**
 Cached coins and the list of flagged entries (CCoinsCacheEntry, src/coins.h:101-214).

 A cache is a hash map whose flagged entries (DIRTY, FRESH or both) also form a circular doubly
 linked list through a sentinel. `Slots` forgets the links; `Threaded` says that the list visits
 exactly the flagged entries, each once, in both directions.
 */
module CoinMaps {

  type OutPoint = nat

  type Script = seq<nat>

  /** An output with the height and coinbase flag of its transaction; the null output is spent. */
  datatype Coin = Coin(nValue: int, scriptPubKey: Script, nHeight: nat, fCoinBase: bool) {
    predicate IsSpent() {
      nValue == -1
    }

    /** Heap memory of the script: short scripts are stored inline. */
    function DynamicMemoryUsage(): nat {
      if |scriptPubKey| <= 36 then 0 else |scriptPubKey|
    }
  }

  /** A coin after Coin::Clear, and a default-constructed one. */
  const NullCoin := Coin(-1, [], 0, false)

  /** CoinsCachePair*: nothing, the sentinel, or the entry of an outpoint. */
  datatype Link = Null | Sentinel | At(outpoint: OutPoint)

  datatype Entry = Entry(coin: Coin, isDirty: bool, isFresh: bool, prev: Link, next: Link) {
    predicate IsFlagged() {
      isDirty || isFresh
    }
  }

  const NewEntry := Entry(NullCoin, false, false, Null, Null)

  datatype CoinMap = CoinMap(coins: map<OutPoint, Entry>, sentinelPrev: Link, sentinelNext: Link)

  /** The sentinel linked to itself (SelfRef). */
  const EmptyMap := CoinMap(map[], Sentinel, Sentinel)

  // ---------------------------------------------------------------- operations

  function SetNext(c: CoinMap, l: Link, x: Link): CoinMap {
    match l
    case Null => c
    case Sentinel => c.(sentinelNext := x)
    case At(k) => if k in c.coins then c.(coins := c.coins[k := c.coins[k].(next := x)]) else c
  }

  function SetPrev(c: CoinMap, l: Link, x: Link): CoinMap {
    match l
    case Null => c
    case Sentinel => c.(sentinelPrev := x)
    case At(k) => if k in c.coins then c.(coins := c.coins[k := c.coins[k].(prev := x)]) else c
  }

  function GetNext(c: CoinMap, l: Link): Link {
    match l
    case Null => Null
    case Sentinel => c.sentinelNext
    case At(k) => if k in c.coins then c.coins[k].next else Null
  }

  function GetPrev(c: CoinMap, l: Link): Link {
    match l
    case Null => Null
    case Sentinel => c.sentinelPrev
    case At(k) => if k in c.coins then c.coins[k].prev else Null
  }

  /** Insert the entry of k at the end of the list. */
  function LinkLast(c: CoinMap, k: OutPoint): CoinMap
    requires k in c.coins
  {
    var c1 := SetPrev(c, At(k), c.sentinelPrev);
    var c2 := SetNext(c1, At(k), Sentinel);
    var c3 := SetPrev(c2, Sentinel, At(k));
    SetNext(c3, GetPrev(c3, At(k)), At(k))
  }

  function AddFlags(c: CoinMap, k: OutPoint, isDirty: bool, isFresh: bool): CoinMap
    requires k in c.coins
  {
    var c1 := if c.coins[k].IsFlagged() then c else LinkLast(c, k);
    if k in c1.coins then
      var e := c1.coins[k];
      c1.(coins := c1.coins[k := e.(isDirty := e.isDirty || isDirty, isFresh := e.isFresh || isFresh)])
    else c1
  }

  function Unlink(c: CoinMap, k: OutPoint): CoinMap {
    var next, prev := GetNext(c, At(k)), GetPrev(c, At(k));
    SetNext(SetPrev(c, next, prev), prev, next)
  }

  function SetClean(c: CoinMap, k: OutPoint): CoinMap
    requires k in c.coins
  {
    if !c.coins[k].IsFlagged() then c
    else
      var c1 := Unlink(c, k);
      c1.(coins := c1.coins[k := Entry(c.coins[k].coin, false, false, Null, Null)])
  }

  /** Erasing an entry runs its destructor, which unlinks it. */
  function Erase(c: CoinMap, k: OutPoint): CoinMap
    requires k in c.coins
  {
    var c1 := SetClean(c, k);
    c1.(coins := c1.coins - {k})
  }

  /** try_emplace with a default-constructed entry. */
  function TryEmplace(c: CoinMap, k: OutPoint): CoinMap {
    if k in c.coins then c else c.(coins := c.coins[k := NewEntry])
  }

  function SetCoin(c: CoinMap, k: OutPoint, coin: Coin): CoinMap
    requires k in c.coins
  {
    c.(coins := c.coins[k := c.coins[k].(coin := coin)])
  }

  // ---------------------------------------------------------------- entries without their links

  datatype Slot = Slot(coin: Coin, isDirty: bool, isFresh: bool)

  function SlotOf(e: Entry): Slot {
    Slot(e.coin, e.isDirty, e.isFresh)
  }

  function Slots(c: CoinMap): map<OutPoint, Slot> {
    map k | k in c.coins :: SlotOf(c.coins[k])
  }

  lemma LinksKeepSlots(c: CoinMap, l: Link, x: Link)
    ensures Slots(SetNext(c, l, x)) == Slots(c) && Slots(SetPrev(c, l, x)) == Slots(c)
    ensures SetNext(c, l, x).coins.Keys == c.coins.Keys && SetPrev(c, l, x).coins.Keys == c.coins.Keys
  {
  }

  lemma LinkLastKeepsSlots(c: CoinMap, k: OutPoint)
    requires k in c.coins
    ensures Slots(LinkLast(c, k)) == Slots(c) && LinkLast(c, k).coins.Keys == c.coins.Keys
  {
    var c1 := SetPrev(c, At(k), c.sentinelPrev);
    var c2 := SetNext(c1, At(k), Sentinel);
    var c3 := SetPrev(c2, Sentinel, At(k));
    LinksKeepSlots(c, At(k), c.sentinelPrev);
    LinksKeepSlots(c1, At(k), Sentinel);
    LinksKeepSlots(c2, Sentinel, At(k));
    LinksKeepSlots(c3, GetPrev(c3, At(k)), At(k));
  }

  lemma SlotsAt(c: CoinMap, d: CoinMap, k: OutPoint)
    requires Slots(c) == Slots(d) && k in c.coins
    ensures k in d.coins && SlotOf(d.coins[k]) == SlotOf(c.coins[k])
  {
    assert Slots(c)[k] == Slots(d)[k];
  }

  lemma AddFlagsSlots(c: CoinMap, k: OutPoint, isDirty: bool, isFresh: bool)
    requires k in c.coins
    ensures Slots(AddFlags(c, k, isDirty, isFresh)) ==
            Slots(c)[k := Slot(c.coins[k].coin, c.coins[k].isDirty || isDirty, c.coins[k].isFresh || isFresh)]
  {
    if !c.coins[k].IsFlagged() {
      LinkLastKeepsSlots(c, k);
      SlotsAt(c, LinkLast(c, k), k);
    }
  }

  lemma UnlinkKeepsSlots(c: CoinMap, k: OutPoint)
    ensures Slots(Unlink(c, k)) == Slots(c) && Unlink(c, k).coins.Keys == c.coins.Keys
  {
    var next, prev := GetNext(c, At(k)), GetPrev(c, At(k));
    LinksKeepSlots(c, next, prev);
    LinksKeepSlots(SetPrev(c, next, prev), prev, next);
  }

  lemma SetCleanSlots(c: CoinMap, k: OutPoint)
    requires k in c.coins
    ensures Slots(SetClean(c, k)) == Slots(c)[k := Slot(c.coins[k].coin, false, false)]
    ensures Slots(Erase(c, k)) == Slots(c) - {k}
  {
    UnlinkKeepsSlots(c, k);
    assert forall j :: j in c.coins ==> Slots(c)[j] == Slots(Unlink(c, k))[j];
  }

  lemma TryEmplaceSlots(c: CoinMap, k: OutPoint)
    ensures Slots(TryEmplace(c, k)) == if k in c.coins then Slots(c) else Slots(c)[k := Slot(NullCoin, false, false)]
  {
  }

  lemma SetCoinSlots(c: CoinMap, k: OutPoint, coin: Coin)
    requires k in c.coins
    ensures Slots(SetCoin(c, k, coin)) == Slots(c)[k := Slot(coin, c.coins[k].isDirty, c.coins[k].isFresh)]
  {
  }

  // ---------------------------------------------------------------- the list of flagged entries

  function Node(order: seq<OutPoint>, i: int): Link {
    if 0 <= i < |order| then At(order[i]) else Sentinel
  }

  /** Nodes i - 1 and i of the ring point to each other. */
  ghost predicate Joined(c: CoinMap, order: seq<OutPoint>, i: int) {
    GetNext(c, Node(order, i - 1)) == Node(order, i) && GetPrev(c, Node(order, i)) == Node(order, i - 1)
  }

  ghost predicate Unique(order: seq<OutPoint>) {
    forall i, j :: 0 <= i < j < |order| ==> order[i] != order[j]
  }

  ghost predicate ListsFlagged(c: CoinMap, order: seq<OutPoint>) {
    && (forall k :: k in order <==> k in c.coins && c.coins[k].IsFlagged())
    && (forall k :: k in c.coins && !c.coins[k].IsFlagged() ==> c.coins[k].prev == Null && c.coins[k].next == Null)
  }

  /** The list visits the flagged entries in the given order. */
  ghost predicate Threaded(c: CoinMap, order: seq<OutPoint>) {
    && Unique(order) && ListsFlagged(c, order)
    && forall i: int {:trigger Joined(c, order, i)} :: 0 <= i <= |order| ==> Joined(c, order, i)
  }

  lemma ThreadedEmpty()
    ensures Threaded(EmptyMap, [])
  {
    assert Joined(EmptyMap, [], 0);
  }

  /** If links and keys agree, so does the list. */
  ghost predicate SameLinks(c: CoinMap, d: CoinMap) {
    forall l: Link :: GetNext(c, l) == GetNext(d, l) && GetPrev(c, l) == GetPrev(d, l)
  }

  lemma SameLinksThreaded(c: CoinMap, d: CoinMap, order: seq<OutPoint>)
    requires Threaded(c, order) && SameLinks(c, d) && ListsFlagged(d, order)
    ensures Threaded(d, order)
  {
    forall i: int | 0 <= i <= |order| ensures Joined(d, order, i) {
      assert Joined(c, order, i);
    }
  }

  lemma SetCoinThreaded(c: CoinMap, order: seq<OutPoint>, k: OutPoint, coin: Coin)
    requires Threaded(c, order) && k in c.coins
    ensures Threaded(SetCoin(c, k, coin), order)
  {
    SameLinksThreaded(c, SetCoin(c, k, coin), order);
  }

  lemma TryEmplaceThreaded(c: CoinMap, order: seq<OutPoint>, k: OutPoint)
    requires Threaded(c, order)
    ensures Threaded(TryEmplace(c, k), order)
  {
    if k !in c.coins {
      var d := TryEmplace(c, k);
      assert forall j :: j in c.coins ==> d.coins[j] == c.coins[j];
      SameLinksThreaded(c, d, order);
    }
  }

  lemma LinkLastEffect(c: CoinMap, order: seq<OutPoint>, k: OutPoint)
    requires Threaded(c, order) && k in c.coins && !c.coins[k].IsFlagged()
    ensures var d, tail := LinkLast(c, k), Node(order, |order| - 1);
      && GetPrev(d, At(k)) == tail && GetNext(d, At(k)) == Sentinel && GetPrev(d, Sentinel) == At(k) && GetNext(d, tail) == At(k)
      && (forall l: Link :: l != At(k) && l != tail ==> GetNext(d, l) == GetNext(c, l))
      && (forall l: Link :: l != At(k) && l != Sentinel ==> GetPrev(d, l) == GetPrev(c, l))
  {
    assert Joined(c, order, |order|);
    var tail := Node(order, |order| - 1);
    assert tail.At? ==> tail.outpoint in order && tail.outpoint in c.coins;
  }

  lemma LinkLastJoined(c: CoinMap, order: seq<OutPoint>, k: OutPoint, i: int)
    requires Threaded(c, order) && k in c.coins && !c.coins[k].IsFlagged() && 0 <= i <= |order| + 1
    ensures Joined(LinkLast(c, k), order + [k], i)
  {
    LinkLastEffect(c, order, k);
    var order', n := order + [k], |order|;
    if i < n {
      assert Joined(c, order, i);
      assert Node(order', i) == Node(order, i) && Node(order', i - 1) == Node(order, i - 1);
      assert order[i] in order;
      assert i > 0 ==> order[i - 1] in order && order[i - 1] != order[n - 1];
    }
  }

  /** Flagging an entry appends it to the list, unless it is already there. */
  lemma AddFlagsThreaded(c: CoinMap, order: seq<OutPoint>, k: OutPoint, isDirty: bool, isFresh: bool)
    requires Threaded(c, order) && k in c.coins && (isDirty || isFresh)
    ensures Threaded(AddFlags(c, k, isDirty, isFresh), if c.coins[k].IsFlagged() then order else order + [k])
  {
    var d := AddFlags(c, k, isDirty, isFresh);
    if c.coins[k].IsFlagged() {
      SameLinksThreaded(c, d, order);
    } else {
      var c1 := LinkLast(c, k);
      LinkLastKeepsSlots(c, k);
      assert SameLinks(c1, d);
      forall i: int | 0 <= i <= |order| + 1 ensures Joined(d, order + [k], i) {
        LinkLastJoined(c, order, k, i);
      }
      AppendedFlagged(c, c1, d, order, k);
    }
  }

  lemma AppendedFlagged(c: CoinMap, c1: CoinMap, d: CoinMap, order: seq<OutPoint>, k: OutPoint)
    requires Threaded(c, order) && k in c.coins && !c.coins[k].IsFlagged() && c1 == LinkLast(c, k) && Slots(c1) == Slots(c)
    requires d.coins.Keys == c.coins.Keys && d.coins[k].IsFlagged() && forall j :: j in c.coins && j != k ==> d.coins[j] == c1.coins[j]
    ensures Unique(order + [k]) && ListsFlagged(d, order + [k])
  {
    forall j | j in c.coins && j != k
      ensures d.coins[j].IsFlagged() == c.coins[j].IsFlagged()
      ensures !c.coins[j].IsFlagged() ==> d.coins[j].prev == Null && d.coins[j].next == Null
    {
      SlotsAt(c, c1, j);
      LinkLastEffect(c, order, k);
      assert GetNext(c1, At(j)) == c1.coins[j].next && GetPrev(c1, At(j)) == c1.coins[j].prev;
      var tail := Node(order, |order| - 1);
      if tail == At(j) { assert j in order; }
    }
  }

  // ---------------------------------------------------------------- taking an entry out of the list

  function Without(order: seq<OutPoint>, j: nat): seq<OutPoint>
    requires j < |order|
  {
    order[..j] + order[j + 1..]
  }

  lemma UnlinkEffect(c: CoinMap, order: seq<OutPoint>, j: nat)
    requires Threaded(c, order) && j < |order|
    ensures var d, prev, next := Unlink(c, order[j]), Node(order, j - 1), Node(order, j + 1);
      && GetNext(d, prev) == next && GetPrev(d, next) == prev
      && (forall l: Link :: l != prev ==> GetNext(d, l) == GetNext(c, l))
      && (forall l: Link :: l != next ==> GetPrev(d, l) == GetPrev(c, l))
  {
    assert Joined(c, order, j) && Joined(c, order, j + 1);
    assert Node(order, j) == At(order[j]);
    var prev, next := Node(order, j - 1), Node(order, j + 1);
    assert prev.At? ==> prev.outpoint in order && prev.outpoint in c.coins;
    assert next.At? ==> next.outpoint in order && next.outpoint in c.coins;
  }

  lemma UnlinkJoined(c: CoinMap, order: seq<OutPoint>, j: nat, i: int)
    requires Threaded(c, order) && j < |order| && 0 <= i < |order|
    ensures Joined(Unlink(c, order[j]), Without(order, j), i)
  {
    UnlinkEffect(c, order, j);
    var order' := Without(order, j);
    if i < j {
      assert Joined(c, order, i);
      assert Node(order', i) == Node(order, i) && Node(order', i - 1) == Node(order, i - 1);
      assert i > 0 ==> order[i - 1] != order[j - 1];
      assert j + 1 < |order| ==> order[i] != order[j + 1];
    } else if i == j {
      assert Node(order', i) == Node(order, i + 1) && Node(order', i - 1) == Node(order, i - 1);
    } else {
      assert Joined(c, order, i + 1);
      assert Node(order', i) == Node(order, i + 1) && Node(order', i - 1) == Node(order, i);
      assert j > 0 ==> order[i] != order[j - 1];
      assert i + 1 < |order| ==> order[i + 1] != order[j + 1];
    }
  }

  /** A node of the list without k is not k. */
  lemma NodeWithout(order: seq<OutPoint>, j: nat, i: int)
    requires Unique(order) && j < |order|
    ensures Node(Without(order, j), i) != At(order[j])
  {
  }

  lemma WithoutMembers(order: seq<OutPoint>, j: nat)
    requires Unique(order) && j < |order|
    ensures Unique(Without(order, j)) && forall k :: k in Without(order, j) <==> k in order && k != order[j]
  {
    var order' := Without(order, j);
    forall k | k in order && k != order[j] ensures k in order' {
      var i :| 0 <= i < |order| && order[i] == k;
      assert order'[if i < j then i else i - 1] == k;
    }
    forall i, i' | 0 <= i < i' < |order'| ensures order'[i] != order'[i'] {
      assert order'[i] == order[if i < j then i else i + 1] && order'[i'] == order[if i' < j then i' else i' + 1];
    }
    assert forall i :: 0 <= i < |order'| ==> order'[i] == order[if i < j then i else i + 1];
  }

  /** Entries other than k, after k has been unlinked. */
  lemma UnlinkedOthers(c: CoinMap, order: seq<OutPoint>, j: nat, d: CoinMap)
    requires Threaded(c, order) && j < |order|
    requires forall k :: k in d.coins && k != order[j] <==> k in c.coins && k != order[j]
    requires forall k :: k in d.coins && k != order[j] && k in Unlink(c, order[j]).coins ==> d.coins[k] == Unlink(c, order[j]).coins[k]
    requires order[j] in d.coins ==> !d.coins[order[j]].IsFlagged() && d.coins[order[j]].prev == Null && d.coins[order[j]].next == Null
    ensures ListsFlagged(d, Without(order, j))
  {
    var c1 := Unlink(c, order[j]);
    UnlinkKeepsSlots(c, order[j]);
    WithoutMembers(order, j);
    forall k | k in c.coins && k != order[j]
      ensures k in d.coins && d.coins[k].IsFlagged() == c.coins[k].IsFlagged()
      ensures !c.coins[k].IsFlagged() ==> d.coins[k].prev == Null && d.coins[k].next == Null
    {
      SlotsAt(c, c1, k);
      UnlinkEffect(c, order, j);
      assert GetNext(c1, At(k)) == c1.coins[k].next && GetPrev(c1, At(k)) == c1.coins[k].prev;
      var prev, next := Node(order, j - 1), Node(order, j + 1);
      if prev == At(k) { assert k in order; }
      if next == At(k) { assert k in order; }
    }
  }

  lemma RemovedThreaded(c: CoinMap, order: seq<OutPoint>, j: nat, d: CoinMap)
    requires Threaded(c, order) && j < |order| && ListsFlagged(d, Without(order, j))
    requires forall l: Link :: l != At(order[j]) ==> GetNext(d, l) == GetNext(Unlink(c, order[j]), l) && GetPrev(d, l) == GetPrev(Unlink(c, order[j]), l)
    ensures Threaded(d, Without(order, j))
  {
    WithoutMembers(order, j);
    forall i: int | 0 <= i <= |Without(order, j)| ensures Joined(d, Without(order, j), i) {
      UnlinkJoined(c, order, j, i);
      NodeWithout(order, j, i);
      NodeWithout(order, j, i - 1);
    }
  }

  /** Cleaning or erasing a flagged entry takes it out of the list. */
  lemma SetCleanThreaded(c: CoinMap, order: seq<OutPoint>, j: nat)
    requires Threaded(c, order) && j < |order|
    ensures order[j] in c.coins
    ensures Threaded(SetClean(c, order[j]), Without(order, j)) && Threaded(Erase(c, order[j]), Without(order, j))
  {
    var k := order[j];
    assert k in order;
    UnlinkKeepsSlots(c, k);
    UnlinkedOthers(c, order, j, SetClean(c, k));
    RemovedThreaded(c, order, j, SetClean(c, k));
    UnlinkedOthers(c, order, j, Erase(c, k));
    RemovedThreaded(c, order, j, Erase(c, k));
  }

  /** Erasing an unflagged entry leaves the list alone. */
  lemma EraseUnflagged(c: CoinMap, order: seq<OutPoint>, k: OutPoint)
    requires Threaded(c, order) && k in c.coins && !c.coins[k].IsFlagged()
    ensures Threaded(Erase(c, k), order)
  {
    var d := Erase(c, k);
    assert forall j :: j in d.coins ==> j in c.coins && d.coins[j] == c.coins[j];
    assert k !in order;
    forall l: Link | l != At(k) ensures GetNext(c, l) == GetNext(d, l) && GetPrev(c, l) == GetPrev(d, l) {
    }
    forall i: int | 0 <= i <= |order| ensures Joined(d, order, i) {
      assert Joined(c, order, i);
      assert Node(order, i) != At(k) && Node(order, i - 1) != At(k);
    }
  }

  /** Where a flagged entry is in the list. */
  lemma Position(c: CoinMap, order: seq<OutPoint>, k: OutPoint) returns (j: nat)
    requires Threaded(c, order) && k in c.coins && c.coins[k].IsFlagged()
    ensures j < |order| && order[j] == k
  {
    j :| 0 <= j < |order| && order[j] == k;
  }

  // ---------------------------------------------------------------- memory usage

  /** Total dynamic memory usage of the cached coins. */
  ghost function UsageOf(m: map<OutPoint, Slot>): nat
    decreases |m|
  {
    if m == map[] then 0
    else
      var k :| k in m;
      m[k].coin.DynamicMemoryUsage() + UsageOf(m - {k})
  }

  lemma {:induction false} UsageSplit(m: map<OutPoint, Slot>, k: OutPoint)
    requires k in m
    ensures UsageOf(m) == m[k].coin.DynamicMemoryUsage() + UsageOf(m - {k})
    decreases |m|
  {
    var j :| j in m && UsageOf(m) == m[j].coin.DynamicMemoryUsage() + UsageOf(m - {j});
    if j != k {
      UsageSplit(m - {j}, k);
      UsageSplit(m - {k}, j);
      assert m - {j} - {k} == m - {k} - {j};
    }
  }

  lemma UsageSet(m: map<OutPoint, Slot>, k: OutPoint, s: Slot)
    ensures UsageOf(m[k := s]) == s.coin.DynamicMemoryUsage() + UsageOf(m - {k})
  {
    UsageSplit(m[k := s], k);
    assert m[k := s] - {k} == m - {k};
  }

  lemma UsageInserted(m: map<OutPoint, Slot>, k: OutPoint, s: Slot)
    requires k !in m
    ensures UsageOf(m[k := s]) == UsageOf(m) + s.coin.DynamicMemoryUsage()
  {
    UsageSet(m, k, s);
    assert m - {k} == m;
  }

  /** An entry that is erased right after it was created leaves no trace. */
  lemma EraseNew(c: CoinMap, k: OutPoint)
    requires k !in c.coins
    ensures k in TryEmplace(c, k).coins && Erase(TryEmplace(c, k), k) == c
  {
    assert c.coins[k := NewEntry] - {k} == c.coins;
  }

  lemma SetTwice(m: map<OutPoint, Slot>, k: OutPoint, a: Slot, b: Slot)
    ensures m[k := a][k := b] == m[k := b]
  {
  }

  /** A new entry, filled with a coin. */
  lemma Filled(c: CoinMap, order: seq<OutPoint>, k: OutPoint, coin: Coin)
    requires k !in c.coins && Threaded(c, order)
    ensures var d := TryEmplace(c, k);
      && k in d.coins && Threaded(SetCoin(d, k, coin), order)
      && Slots(SetCoin(d, k, coin)) == Slots(c)[k := Slot(coin, false, false)]
      && SlotOf(SetCoin(d, k, coin).coins[k]) == Slot(coin, false, false)
  {
    TryEmplaceSlots(c, k);
    TryEmplaceThreaded(c, order, k);
    SetCoinSlots(TryEmplace(c, k), k, coin);
    SetCoinThreaded(TryEmplace(c, k), order, k, coin);
    SetTwice(Slots(c), k, Slot(NullCoin, false, false), Slot(coin, false, false));
  }
}
