/**
 CheckAddrman (src/addrman.cpp:1063-1166): the address manager's own check of its tables.

 The check returns 0 exactly if its conditions hold, whatever the tables contain; a consistent
 address manager meets them all.
 */
module AddrChecks {
  import opened Options
  import opened AddrBooks

  // ---------------------------------------------------------------- the conditions

  /** Codes -1 to -6, -8 and -14: what is demanded of one entry. */
  ghost predicate EntryPasses(b: Book, n: Id, info: AddrInfo) {
    && (info.fInTried ==> info.lastSuccess != 0 && info.nRefCount == 0)
    && (!info.fInTried ==> 1 <= info.nRefCount <= NEW_BUCKETS_PER_ADDRESS)
    && info.addr in b.mapAddr && b.mapAddr[info.addr] == n
    && 0 <= info.nRandomPos < |b.vRandom| && b.vRandom[info.nRandomPos] == n
    && info.lastTry >= 0 && info.lastSuccess >= 0
  }

  ghost predicate EntriesPass(b: Book, except: set<Id>) {
    forall n {:trigger EntryPasses(b, n, b.mapInfo[n])} :: n in b.mapInfo && n !in except ==> EntryPasses(b, n, b.mapInfo[n])
  }

  ghost function TriedIds(b: Book): set<Id> {
    set id | id in b.mapInfo && b.mapInfo[id].fInTried
  }

  ghost function NewIds(b: Book): set<Id> {
    set id | id in b.mapInfo && !b.mapInfo[id].fInTried
  }

  ghost predicate TriedSpotPasses(h: Hashes, b: Book, s: Spot, id: Id) {
    id in TriedIds(b) && s == TriedSpot(h, b.mapInfo[id].addr)
  }

  /** Codes -11, -13, -17 and -18: every tried entry is at exactly one position, the right one. */
  ghost predicate TriedTablePasses(h: Hashes, b: Book) {
    && (forall s {:trigger TriedSpotPasses(h, b, s, b.vvTried[s])} :: s in b.vvTried ==> TriedSpotPasses(h, b, s, b.vvTried[s]))
    && (forall id {:trigger id in TriedIds(b)} :: id in TriedIds(b) ==> id in b.vvTried.Values)
  }

  ghost predicate NewSpotPasses(h: Hashes, b: Book, s: Spot, id: Id) {
    id in NewIds(b) && s.pos == GetBucketPosition(h, b.mapInfo[id].addr, true, s.bucket)
  }

  ghost predicate NewCountPasses(b: Book, id: Id)
    requires id in b.mapInfo
  {
    |SpotsOf(b.vvNew, id)| == b.mapInfo[id].nRefCount
  }

  /** Codes -12, -15 and -19: every new entry is at as many positions as it has references. */
  ghost predicate NewTablePasses(h: Hashes, b: Book) {
    && (forall s {:trigger NewSpotPasses(h, b, s, b.vvNew[s])} :: s in b.vvNew ==> NewSpotPasses(h, b, s, b.vvNew[s]))
    && (forall id {:trigger NewCountPasses(b, id)} :: id in NewIds(b) ==> NewCountPasses(b, id))
  }

  ghost function Networks(h: Hashes, b: Book, except: set<Id>): set<Network> {
    set id | id in b.mapInfo && id !in except :: h.network(b.mapInfo[id].addr)
  }

  ghost predicate CountPasses(h: Hashes, b: Book, net: Network)
    requires net in b.counts
  {
    b.counts[net] == TrueCount(h, b.mapInfo, {}, net)
  }

  ghost predicate CountsPass(h: Hashes, b: Book, except: set<Network>) {
    forall net {:trigger CountPasses(h, b, net)} :: net in b.counts && net !in except ==> CountPasses(h, b, net)
  }

  /** All conditions; the code of each is on the right. */
  ghost predicate CheckPasses(h: Hashes, b: Book) {
    && |b.vRandom| == b.nTried + b.nNew                        // -7
    && EntriesPass(b, {})
    && |TriedIds(b)| == b.nTried && |NewIds(b)| == b.nNew      // -9, -10
    && TriedTablePasses(h, b) && NewTablePasses(h, b)
    && h.key != 0                                              // -16
    && |b.counts| >= |Networks(h, b, {})|                      // -20
    && CountsPass(h, b, {})                                    // -21
  }

  /** The tables have as many buckets and positions as the arrays that hold them. */
  ghost predicate InBounds(b: Book) {
    && (forall s :: s in b.vvTried ==> s.bucket < TRIED_BUCKET_COUNT && s.pos < BUCKET_SIZE)
    && (forall s :: s in b.vvNew ==> s.bucket < NEW_BUCKET_COUNT && s.pos < BUCKET_SIZE)
  }

  // ---------------------------------------------------------------- the check

  /** Some member of a nonempty set. */
  method Pick<T>(s: set<T>) returns (x: T)
    requires s != {}
    ensures x in s
  {
    x :| x in s;
  }

  /** The first condition that an entry violates, or 0. */
  function EntryCode(b: Book, n: Id, info: AddrInfo): (code: int)
    ensures code == 0 <==> EntryPasses(b, n, info)
  {
    if info.fInTried && info.lastSuccess == 0 then -1
    else if info.fInTried && info.nRefCount != 0 then -2
    else if !info.fInTried && (info.nRefCount < 0 || info.nRefCount > NEW_BUCKETS_PER_ADDRESS) then -3
    else if !info.fInTried && info.nRefCount == 0 then -4
    else if info.addr !in b.mapAddr || b.mapAddr[info.addr] != n then -5
    else if info.nRandomPos < 0 || info.nRandomPos >= |b.vRandom| || b.vRandom[info.nRandomPos] != n then -14
    else if info.lastTry < 0 then -6
    else if info.lastSuccess < 0 then -8
    else 0
  }

  /** The references of the new entries that are not in except. */
  ghost function RefsWithout(b: Book, except: set<Id>): map<Id, int> {
    map id | id in NewIds(b) && id !in except :: b.mapInfo[id].nRefCount
  }

  /** What has been counted when the entries in except have not been visited. */
  ghost predicate Gathered(h: Hashes, b: Book, except: set<Id>, setTried: set<Id>, mapNew: map<Id, int>, local: map<Network, Count>) {
    && setTried == TriedIds(b) - except && mapNew == RefsWithout(b, except)
    && local.Keys == Networks(h, b, except)
    && (forall net: Network {:trigger CountOf(local, net)} :: CountOf(local, net) == TrueCount(h, b.mapInfo, except, net))
  }

  /** CheckAddrman. */
  method CheckAddrman(h: Hashes, b: Book) returns (code: int)
    requires InBounds(b)
    ensures code == 0 <==> CheckPasses(h, b)
  {
    if |b.vRandom| != b.nTried + b.nNew {
      return -7;
    }
    var setTried, mapNew, local;
    code, setTried, mapNew, local := CheckEntries(h, b);
    if code != 0 {
      return;
    }
    GatheredAll(h, b, setTried, mapNew, local);
    if |setTried| != b.nTried {
      return -9;
    }
    if |mapNew| != b.nNew {
      return -10;
    }
    code := CheckTables(h, b, setTried, mapNew);
    if code != 0 {
      return;
    }
    if h.key == 0 {
      return -16;
    }
    if |b.counts| < |local| {
      return -20;
    }
    code := CheckCounts(h, b, local);
  }

  /** Visit every entry, gathering who is tried, who is new, and how many there are per network. */
  method CheckEntries(h: Hashes, b: Book) returns (code: int, setTried: set<Id>, mapNew: map<Id, int>, local: map<Network, Count>)
    ensures code == 0 <==> EntriesPass(b, {})
    ensures code == 0 ==> Gathered(h, b, {}, setTried, mapNew, local)
  {
    setTried, mapNew, local, code := {}, map[], map[], 0;
    var todo := b.mapInfo.Keys;
    GatheredNone(h, b);
    while todo != {}
      invariant todo <= b.mapInfo.Keys && EntriesPass(b, todo) && Gathered(h, b, todo, setTried, mapNew, local)
      decreases |todo|
    {
      var n := Pick(todo);
      var info := b.mapInfo[n];
      code := EntryCode(b, n, info);
      if code != 0 {
        assert !EntryPasses(b, n, b.mapInfo[n]);
        return;
      }
      GatheredOne(h, b, todo, n, setTried, mapNew, local);
      if info.fInTried {
        setTried := setTried + {n};
      } else {
        mapNew := mapNew[n := info.nRefCount];
      }
      local := Bumped(local, h.network(info.addr), One(!info.fInTried), One(info.fInTried));
      EntriesNext(b, todo, n);
      todo := todo - {n};
    }
  }

  lemma EntriesNext(b: Book, except: set<Id>, n: Id)
    requires n in b.mapInfo && EntriesPass(b, except) && EntryPasses(b, n, b.mapInfo[n])
    ensures EntriesPass(b, except - {n})
  {
    forall j | j in b.mapInfo && j !in except - {n} ensures EntryPasses(b, j, b.mapInfo[j]) {
      if j != n { assert j !in except; }
    }
  }

  lemma GatheredNone(h: Hashes, b: Book)
    ensures EntriesPass(b, b.mapInfo.Keys) && Gathered(h, b, b.mapInfo.Keys, {}, map[], map[])
  {
    var all := b.mapInfo.Keys;
    var refs := RefsWithout(b, all);
    forall id: Id ensures id !in refs.Keys {
    }
    SameSet(refs.Keys, {});
    SameSet(TriedIds(b) - all, {});
    SameSet(Networks(h, b, all), {});
    forall net: Network ensures CountOf(map[], net) == TrueCount(h, b.mapInfo, all, net) {
      assert Members(h, b.mapInfo, all, false, Some(net)) == {} && Members(h, b.mapInfo, all, true, Some(net)) == {};
    }
  }

  lemma GatheredOne(h: Hashes, b: Book, except: set<Id>, n: Id, setTried: set<Id>, mapNew: map<Id, int>, local: map<Network, Count>)
    requires n in except && n in b.mapInfo && Gathered(h, b, except, setTried, mapNew, local)
    ensures var info := b.mapInfo[n];
      Gathered(h, b, except - {n}, if info.fInTried then setTried + {n} else setTried,
        if info.fInTried then mapNew else mapNew[n := info.nRefCount],
        Bumped(local, h.network(info.addr), One(!info.fInTried), One(info.fInTried)))
  {
    var info, rest := b.mapInfo[n], except - {n};
    GatheredLists(b, except, n);
    NetworksOne(h, b, except, n);
    var net0 := h.network(info.addr);
    var local' := Bumped(local, net0, One(!info.fInTried), One(info.fInTried));
    forall net: Network ensures CountOf(local', net) == TrueCount(h, b.mapInfo, rest, net) {
      CountedOne(h, b, except, n, net);
      assert CountOf(local, net) == TrueCount(h, b.mapInfo, except, net);
    }
  }

  lemma GatheredLists(b: Book, except: set<Id>, n: Id)
    requires n in except && n in b.mapInfo
    ensures var info := b.mapInfo[n];
      && TriedIds(b) - (except - {n}) == (if info.fInTried then TriedIds(b) - except + {n} else TriedIds(b) - except)
      && RefsWithout(b, except - {n}) == (if info.fInTried then RefsWithout(b, except) else RefsWithout(b, except)[n := info.nRefCount])
  {
  }

  lemma NetworksOne(h: Hashes, b: Book, except: set<Id>, n: Id)
    requires n in except && n in b.mapInfo
    ensures Networks(h, b, except - {n}) == Networks(h, b, except) + {h.network(b.mapInfo[n].addr)}
  {
    var net0 := h.network(b.mapInfo[n].addr);
    forall net: Network | net in Networks(h, b, except - {n}) ensures net in Networks(h, b, except) + {net0} {
      var id :| id in b.mapInfo && id !in except - {n} && h.network(b.mapInfo[id].addr) == net;
      if id != n { assert id !in except; }
    }
    assert n !in except - {n};
  }

  lemma CountedOne(h: Hashes, b: Book, except: set<Id>, n: Id, net: Network)
    requires n in except && n in b.mapInfo
    ensures var info, was, now := b.mapInfo[n], TrueCount(h, b.mapInfo, except, net), TrueCount(h, b.mapInfo, except - {n}, net);
      now == if net == h.network(info.addr) then Count(was.nNew + One(!info.fInTried), was.nTried + One(info.fInTried)) else was
  {
    var info, m := b.mapInfo[n], b.mapInfo;
    assert m[n := info] == m;
    TallyUpdate(h, m, except, false, Some(net), n, info, except - {n});
    TallyUpdate(h, m, except, true, Some(net), n, info, except - {n});
  }

  lemma GatheredAll(h: Hashes, b: Book, setTried: set<Id>, mapNew: map<Id, int>, local: map<Network, Count>)
    requires Gathered(h, b, {}, setTried, mapNew, local)
    ensures setTried == TriedIds(b) && mapNew.Keys == NewIds(b) && |mapNew| == |NewIds(b)| && |local| == |Networks(h, b, {})|
  {
    assert |mapNew.Keys| == |mapNew| && |local.Keys| == |local|;
  }

  // ---------------------------------------------------------------- the tables

  lemma SameSet<T>(a: set<T>, b: set<T>)
    requires forall x :: x in a <==> x in b
    ensures a == b
  {
  }

  lemma ValuesWith(t: map<Spot, Id>, s: Spot, id: Id)
    requires s !in t
    ensures t[s := id].Values == t.Values + {id}
  {
    var more := t[s := id];
    forall x: Id ensures x in more.Values <==> x in t.Values + {id} {
      if x in t.Values {
        var u :| u in t && t[u] == x;
        assert more[u] == x;
      }
      assert more[s] == id;
    }
    SameSet(more.Values, t.Values + {id});
  }

  /** What a table holds before bucket n, position i. */
  ghost function Seen(t: map<Spot, Id>, n: nat, i: nat): map<Spot, Id> {
    map s | s in t && (s.bucket < n || (s.bucket == n && s.pos < i)) :: t[s]
  }

  lemma SeenNext(t: map<Spot, Id>, n: nat, i: nat)
    ensures Spot(n, i) !in Seen(t, n, i)
    ensures Seen(t, n, i + 1) == if Spot(n, i) in t then Seen(t, n, i)[Spot(n, i) := t[Spot(n, i)]] else Seen(t, n, i)
  {
    assert forall s: Spot :: s.bucket == n && s.pos == i ==> s == Spot(n, i);
  }

  lemma SeenBucket(t: map<Spot, Id>, n: nat)
    requires forall s :: s in t ==> s.pos < BUCKET_SIZE
    ensures Seen(t, n, BUCKET_SIZE) == Seen(t, n + 1, 0)
  {
  }

  lemma SeenAll(t: map<Spot, Id>, n: nat)
    requires forall s :: s in t ==> s.bucket < n
    ensures Seen(t, n, 0) == t && Seen(t, 0, 0) == map[]
  {
  }

  method CheckTables(h: Hashes, b: Book, setTried: set<Id>, mapNew: map<Id, int>) returns (code: int)
    requires InBounds(b) && EntriesPass(b, {}) && setTried == TriedIds(b) && mapNew == RefsWithout(b, {})
    ensures code == 0 <==> TriedTablePasses(h, b) && NewTablePasses(h, b)
  {
    var leftTried, leftNew;
    code, leftTried := CheckTriedTable(h, b, setTried);
    if code != 0 {
      return;
    }
    code, leftNew := CheckNewTable(h, b, mapNew);
    if code != 0 {
      return;
    }
    if leftTried != {} {
      return -13;
    }
    if leftNew != map[] {
      return -15;
    }
  }

  /** The tried positions seen so far are right and hold different ids; the others are left. */
  ghost predicate TriedSeen(h: Hashes, b: Book, seen: map<Spot, Id>, left: set<Id>) {
    && (forall s {:trigger TriedSpotPasses(h, b, s, seen[s])} :: s in seen ==> TriedSpotPasses(h, b, s, seen[s]))
    && left == TriedIds(b) - seen.Values
  }

  method CheckTriedTable(h: Hashes, b: Book, setTried: set<Id>) returns (code: int, left: set<Id>)
    requires InBounds(b) && setTried == TriedIds(b)
    ensures code == 0 && left == {} <==> TriedTablePasses(h, b)
  {
    left, code := setTried, 0;
    SeenAll(b.vvTried, TRIED_BUCKET_COUNT);
    for n := 0 to TRIED_BUCKET_COUNT
      invariant code == 0 && TriedSeen(h, b, Seen(b.vvTried, n, 0), left)
    {
      for i := 0 to BUCKET_SIZE
        invariant code == 0 && TriedSeen(h, b, Seen(b.vvTried, n, i), left)
      {
        SeenNext(b.vvTried, n, i);
        if Spot(n, i) in b.vvTried {
          code := TriedCode(h, b, n, i, left);
          TriedSpotSeen(h, b, Seen(b.vvTried, n, i), left, Spot(n, i), b.vvTried[Spot(n, i)], code);
          if code != 0 {
            return;
          }
          left := left - {b.vvTried[Spot(n, i)]};
        }
      }
      SeenBucket(b.vvTried, n);
    }
    TriedAllSeen(h, b, left);
  }

  /** Codes -11, -17 and -18 for one position. */
  function TriedCode(h: Hashes, b: Book, n: nat, i: nat, left: set<Id>): (code: int)
    requires Spot(n, i) in b.vvTried
  {
    var id := b.vvTried[Spot(n, i)];
    if id !in left then -11
    else if id !in b.mapInfo || GetTriedBucket(h, b.mapInfo[id].addr) != n then -17
    else if GetBucketPosition(h, b.mapInfo[id].addr, false, n) != i then -18
    else 0
  }

  lemma TriedSpotSeen(h: Hashes, b: Book, seen: map<Spot, Id>, left: set<Id>, s: Spot, id: Id, code: int)
    requires TriedSeen(h, b, seen, left) && s !in seen && s in b.vvTried && b.vvTried[s] == id
    requires forall t :: t in seen ==> t in b.vvTried && b.vvTried[t] == seen[t]
    requires code == TriedCode(h, b, s.bucket, s.pos, left)
    ensures code == 0 ==> TriedSeen(h, b, seen[s := id], left - {id})
    ensures code != 0 ==> !TriedTablePasses(h, b)
  {
    assert Spot(s.bucket, s.pos) == s;
    if code == 0 {
      assert TriedSpotPasses(h, b, s, id);
      var more := seen[s := id];
      ValuesWith(seen, s, id);
      forall t | t in more ensures TriedSpotPasses(h, b, t, more[t]) {
        if t != s { assert TriedSpotPasses(h, b, t, seen[t]); }
      }
    }
    if TriedTablePasses(h, b) {
      TriedOnlyHere(h, b, seen, s);
    }
  }

  lemma TriedOnlyHere(h: Hashes, b: Book, seen: map<Spot, Id>, s: Spot)
    requires TriedTablePasses(h, b) && s !in seen && s in b.vvTried
    requires forall t :: t in seen ==> t in b.vvTried && b.vvTried[t] == seen[t]
    ensures TriedSpotPasses(h, b, s, b.vvTried[s]) && b.vvTried[s] !in seen.Values
  {
    assert TriedSpotPasses(h, b, s, b.vvTried[s]);
    forall t | t in seen ensures seen[t] != b.vvTried[s] {
      assert TriedSpotPasses(h, b, t, b.vvTried[t]);
    }
  }

  lemma TriedAllSeen(h: Hashes, b: Book, left: set<Id>)
    requires TriedSeen(h, b, b.vvTried, left)
    ensures left == {} <==> TriedTablePasses(h, b)
  {
    forall s | s in b.vvTried ensures TriedSpotPasses(h, b, s, b.vvTried[s]) {
    }
    if left == {} {
      forall id | id in TriedIds(b) ensures id in b.vvTried.Values {
        assert id !in left;
      }
    } else if TriedTablePasses(h, b) {
      forall id: Id ensures id !in left {
        assert id in TriedIds(b) ==> id in b.vvTried.Values;
      }
    }
  }

  /** left says how many positions of id are still to come. */
  ghost predicate NewSeenAt(b: Book, seen: map<Spot, Id>, left: map<Id, int>, id: Id)
    requires id in b.mapInfo
  {
    var to := b.mapInfo[id].nRefCount - |SpotsOf(seen, id)|;
    to >= 0 && (id in left <==> to > 0) && (id in left ==> left[id] == to)
  }

  ghost predicate NewSeen(h: Hashes, b: Book, seen: map<Spot, Id>, left: map<Id, int>) {
    && (forall s {:trigger NewSpotPasses(h, b, s, seen[s])} :: s in seen ==> NewSpotPasses(h, b, s, seen[s]))
    && (forall id {:trigger NewSeenAt(b, seen, left, id)} :: id in NewIds(b) ==> NewSeenAt(b, seen, left, id))
    && left.Keys <= NewIds(b)
  }

  method CheckNewTable(h: Hashes, b: Book, mapNew: map<Id, int>) returns (code: int, left: map<Id, int>)
    requires InBounds(b) && EntriesPass(b, {}) && mapNew == RefsWithout(b, {})
    ensures code == 0 && left == map[] <==> NewTablePasses(h, b)
  {
    left, code := mapNew, 0;
    SeenAll(b.vvNew, NEW_BUCKET_COUNT);
    NoneSeen(h, b, mapNew);
    for n := 0 to NEW_BUCKET_COUNT
      invariant code == 0 && NewSeen(h, b, Seen(b.vvNew, n, 0), left)
    {
      for i := 0 to BUCKET_SIZE
        invariant code == 0 && NewSeen(h, b, Seen(b.vvNew, n, i), left)
      {
        SeenNext(b.vvNew, n, i);
        if Spot(n, i) in b.vvNew {
          code := NewCode(h, b, n, i, left);
          NewSpotSeen(h, b, Seen(b.vvNew, n, i), left, Spot(n, i), b.vvNew[Spot(n, i)], code);
          if code != 0 {
            return;
          }
          left := OneFewer(left, b.vvNew[Spot(n, i)]);
        }
      }
      SeenBucket(b.vvNew, n);
    }
    NewAllSeen(h, b, left);
  }

  /** Codes -12 and -19 for one position. */
  function NewCode(h: Hashes, b: Book, n: nat, i: nat, left: map<Id, int>): (code: int)
    requires Spot(n, i) in b.vvNew
    ensures code == 0 ==> b.vvNew[Spot(n, i)] in left
  {
    var id := b.vvNew[Spot(n, i)];
    if id !in left then -12
    else if id !in b.mapInfo || GetBucketPosition(h, b.mapInfo[id].addr, true, n) != i then -19
    else 0
  }

  /** Count down, and erase at zero. */
  function OneFewer(left: map<Id, int>, id: Id): map<Id, int>
    requires id in left
  {
    if left[id] - 1 == 0 then left - {id} else left[id := left[id] - 1]
  }

  lemma NoneSeen(h: Hashes, b: Book, mapNew: map<Id, int>)
    requires EntriesPass(b, {}) && mapNew == RefsWithout(b, {})
    ensures NewSeen(h, b, map[], mapNew)
  {
    forall id | id in NewIds(b) ensures NewSeenAt(b, map[], mapNew, id) {
      assert SpotsOf(map[], id) == {};
      assert EntryPasses(b, id, b.mapInfo[id]);
    }
  }

  lemma NewSpotSeen(h: Hashes, b: Book, seen: map<Spot, Id>, left: map<Id, int>, s: Spot, id: Id, code: int)
    requires NewSeen(h, b, seen, left) && s !in seen && s in b.vvNew && b.vvNew[s] == id
    requires forall t :: t in seen ==> t in b.vvNew && b.vvNew[t] == seen[t]
    requires code == NewCode(h, b, s.bucket, s.pos, left)
    ensures code == 0 ==> id in left && NewSeen(h, b, seen[s := id], OneFewer(left, id))
    ensures code != 0 ==> !NewTablePasses(h, b)
  {
    assert Spot(s.bucket, s.pos) == s;
    if code == 0 {
      NewSpotCounted(h, b, seen, left, s, id);
    }
    if NewTablePasses(h, b) {
      assert NewSpotPasses(h, b, s, b.vvNew[s]);
      assert NewSeenAt(b, seen, left, id) && NewCountPasses(b, id);
      MoreSpots(b, seen, s, id);
    }
  }

  lemma MoreSpots(b: Book, seen: map<Spot, Id>, s: Spot, id: Id)
    requires s !in seen && s in b.vvNew && b.vvNew[s] == id && forall t :: t in seen ==> t in b.vvNew && b.vvNew[t] == seen[t]
    ensures |SpotsOf(seen, id)| < |SpotsOf(b.vvNew, id)|
  {
    var all, some := SpotsOf(b.vvNew, id), SpotsOf(seen, id);
    assert some <= all - {s};
    assert all == some + (all - some) && s in all - some;
  }

  lemma NewSpotCounted(h: Hashes, b: Book, seen: map<Spot, Id>, left: map<Id, int>, s: Spot, id: Id)
    requires NewSeen(h, b, seen, left) && s !in seen && id in left && NewSpotPasses(h, b, s, id)
    ensures NewSeen(h, b, seen[s := id], OneFewer(left, id))
  {
    SpotAdded(seen, s, id);
    var more := seen[s := id];
    forall t | t in more ensures NewSpotPasses(h, b, t, more[t]) {
      if t != s { assert NewSpotPasses(h, b, t, seen[t]); }
    }
    forall j | j in NewIds(b) ensures NewSeenAt(b, more, OneFewer(left, id), j) {
      assert NewSeenAt(b, seen, left, j);
    }
  }

  lemma NewAllSeen(h: Hashes, b: Book, left: map<Id, int>)
    requires NewSeen(h, b, b.vvNew, left)
    ensures left == map[] <==> NewTablePasses(h, b)
  {
    if left == map[] {
      forall id | id in NewIds(b) ensures NewCountPasses(b, id) {
        assert NewSeenAt(b, b.vvNew, left, id);
      }
    } else if NewTablePasses(h, b) {
      forall id: Id ensures id !in left.Keys {
        if id in NewIds(b) { assert NewSeenAt(b, b.vvNew, left, id) && NewCountPasses(b, id); }
      }
      SameSet(left.Keys, {});
    }
  }

  /** Code -21: compare the counts per network. */
  method CheckCounts(h: Hashes, b: Book, local: map<Network, Count>) returns (code: int)
    requires forall net: Network {:trigger CountOf(local, net)} :: CountOf(local, net) == TrueCount(h, b.mapInfo, {}, net)
    ensures code == 0 <==> CountsPass(h, b, {})
  {
    var todo := b.counts.Keys;
    while todo != {}
      invariant todo <= b.counts.Keys && CountsPass(h, b, todo)
      decreases |todo|
    {
      var net := Pick(todo);
      if CountOf(local, net) != b.counts[net] {
        assert !CountPasses(h, b, net);
        return -21;
      }
      CountsNext(h, b, todo, net);
      todo := todo - {net};
    }
    return 0;
  }

  lemma CountsNext(h: Hashes, b: Book, except: set<Network>, net: Network)
    requires net in b.counts && CountsPass(h, b, except) && CountPasses(h, b, net)
    ensures CountsPass(h, b, except - {net})
  {
    forall n | n in b.counts && n !in except - {net} ensures CountPasses(h, b, n) {
      if n != net { assert n !in except; }
    }
  }

  // ---------------------------------------------------------------- what a consistent state passes

  lemma {:induction false} RandomPrefix(b: Book, k: nat)
    requires Indexed(b) && k <= |b.vRandom|
    ensures |set i | 0 <= i < k :: b.vRandom[i]| == k
  {
    if k > 0 {
      RandomPrefix(b, k - 1);
      var was := set i | 0 <= i < k - 1 :: b.vRandom[i];
      assert (set i | 0 <= i < k :: b.vRandom[i]) == was + {b.vRandom[k - 1]};
      forall i | 0 <= i < k - 1 ensures b.vRandom[i] != b.vRandom[k - 1] {
        assert RandomIndexed(b.mapInfo, i, b.vRandom[i]) && RandomIndexed(b.mapInfo, k - 1, b.vRandom[k - 1]);
      }
    }
  }

  /** vRandom lists every entry once. */
  lemma RandomSize(b: Book)
    requires Indexed(b)
    ensures |b.vRandom| == |TriedIds(b)| + |NewIds(b)|
  {
    RandomPrefix(b, |b.vRandom|);
    RandomIds(b);
  }

  lemma RandomIds(b: Book)
    requires Indexed(b)
    ensures (set i | 0 <= i < |b.vRandom| :: b.vRandom[i]) == TriedIds(b) + NewIds(b)
  {
    var all := set i | 0 <= i < |b.vRandom| :: b.vRandom[i];
    forall id: Id ensures id in all <==> id in b.mapInfo {
      if id in b.mapInfo { assert EntryIndexed(b, id, b.mapInfo[id]); }
      if id in all {
        var i :| 0 <= i < |b.vRandom| && b.vRandom[i] == id;
        assert RandomIndexed(b.mapInfo, i, b.vRandom[i]);
      }
    }
  }

  lemma SubsetSize(a: set<Network>, b: set<Network>)
    requires a <= b
    ensures |a| <= |b|
  {
    assert b == a + (b - a);
  }

  /** Networks of known entries have been counted. */
  lemma NetworkCounted(h: Hashes, b: Book, id: Id)
    requires Tallied(h, b, {}) && id in b.mapInfo
    ensures h.network(b.mapInfo[id].addr) in b.counts
  {
    var net := h.network(b.mapInfo[id].addr);
    assert CountOf(b.counts, net) == TrueCount(h, b.mapInfo, {}, net);
    assert id in Members(h, b.mapInfo, {}, b.mapInfo[id].fInTried, Some(net));
  }

  lemma NewTableCheck(h: Hashes, b: Book)
    requires NewTableOk(h, b) && RefsOk(b, {})
    ensures NewTablePasses(h, b)
  {
    forall s | s in b.vvNew ensures NewSpotPasses(h, b, s, b.vvNew[s]) {
      assert NewEntryOk(h, b.mapInfo, s, b.vvNew[s]);
    }
    forall id | id in NewIds(b) ensures NewCountPasses(b, id) {
      assert RefAt(b, {}, id);
    }
  }

  lemma TriedTableCheck(h: Hashes, b: Book)
    requires TriedTableOk(h, b)
    ensures TriedTablePasses(h, b)
  {
    forall s | s in b.vvTried ensures TriedSpotPasses(h, b, s, b.vvTried[s]) {
      assert TriedEntryOk(h, b.mapInfo, s, b.vvTried[s]);
    }
    forall id | id in TriedIds(b) ensures id in b.vvTried.Values {
      assert IsTried(h, b.vvTried, id, b.mapInfo[id]);
    }
  }

  lemma ConsistentInBounds(h: Hashes, b: Book)
    requires Consistent(h, b)
    ensures InBounds(b)
  {
    forall s | s in b.vvTried ensures s.bucket < TRIED_BUCKET_COUNT && s.pos < BUCKET_SIZE {
      assert TriedEntryOk(h, b.mapInfo, s, b.vvTried[s]);
    }
    forall s | s in b.vvNew ensures s.bucket < NEW_BUCKET_COUNT && s.pos < BUCKET_SIZE {
      assert NewEntryOk(h, b.mapInfo, s, b.vvNew[s]);
    }
  }

  /** A consistent address manager passes its own check. */
  lemma ConsistentPasses(h: Hashes, b: Book)
    requires Consistent(h, b) && h.key != 0
    ensures CheckPasses(h, b)
  {
    RandomSize(b);
    assert Members(h, b.mapInfo, {}, true, None) == TriedIds(b) && Members(h, b.mapInfo, {}, false, None) == NewIds(b);
    forall n | n in b.mapInfo ensures EntryPasses(b, n, b.mapInfo[n]) {
      assert RefAt(b, {}, n) && EntryIndexed(b, n, b.mapInfo[n]);
    }
    TriedTableCheck(h, b);
    NewTableCheck(h, b);
    CountsCheck(h, b);
  }

  lemma CountsCheck(h: Hashes, b: Book)
    requires Tallied(h, b, {})
    ensures |b.counts| >= |Networks(h, b, {})| && CountsPass(h, b, {})
  {
    forall net | net in Networks(h, b, {}) ensures net in b.counts.Keys {
      var id :| id in b.mapInfo && h.network(b.mapInfo[id].addr) == net;
      NetworkCounted(h, b, id);
    }
    SubsetSize(Networks(h, b, {}), b.counts.Keys);
    assert |b.counts.Keys| == |b.counts|;
    forall net | net in b.counts ensures CountPasses(h, b, net) {
      assert CountOf(b.counts, net) == TrueCount(h, b.mapInfo, {}, net);
    }
  }
}
