/**
 The address manager's tables as one value (src/addrman_impl.h), the steps its operations are made
 of, and the consistency conditions that CheckAddrman tests (src/addrman.cpp:1063-1166).

 The tables hold only occupied positions: a position that is -1 in the program is absent here.
 */
module AddrBooks {
  import opened Options

  /** nid_type: ids are given out from 0 upwards; -1 stands for no id and is modelled as absence. */
  type Id = int

  /** CService: an address and port. */
  type Service = nat

  /** CNetAddr: where an address was learned from. */
  type Source = nat

  type Network = nat

  const TRIED_BUCKET_COUNT: nat := 256
  const NEW_BUCKET_COUNT: nat := 1024
  const BUCKET_SIZE: nat := 64
  const NEW_BUCKETS_PER_ADDRESS: int := 8

  /** The secret key (0 is the null key), the hashes under it that decide where an address may be stored, and what is known of an address; arbitrary functions. */
  datatype Hashes = Hashes(
    key: nat, tried: Service -> nat, newHash: (Service, Source) -> nat, position: (Service, bool, nat) -> nat,
    network: Service -> Network, routable: Service -> bool, valid: Service -> bool)

  datatype Spot = Spot(bucket: nat, pos: nat)

  datatype AddrInfo = AddrInfo(
    addr: Service, source: Source, nTime: int, nServices: set<nat>,
    lastTry: int, lastCountAttempt: int, lastSuccess: int, nAttempts: int,
    nRefCount: int, fInTried: bool, nRandomPos: int)

  datatype Count = Count(nNew: int, nTried: int)

  datatype Book = Book(
    nIdCount: int, mapInfo: map<Id, AddrInfo>, mapAddr: map<Service, Id>, vRandom: seq<Id>,
    nTried: int, vvTried: map<Spot, Id>, nNew: int, vvNew: map<Spot, Id>,
    counts: map<Network, Count>, collisions: set<Id>)

  const EmptyBook := Book(0, map[], map[], [], 0, map[], 0, map[], map[], {})

  function GetTriedBucket(h: Hashes, a: Service): (b: nat)
    ensures b < TRIED_BUCKET_COUNT
  {
    h.tried(a) % TRIED_BUCKET_COUNT
  }

  function GetNewBucket(h: Hashes, a: Service, src: Source): (b: nat)
    ensures b < NEW_BUCKET_COUNT
  {
    h.newHash(a, src) % NEW_BUCKET_COUNT
  }

  function GetBucketPosition(h: Hashes, a: Service, isNew: bool, bucket: nat): (p: nat)
    ensures p < BUCKET_SIZE
  {
    h.position(a, isNew, bucket) % BUCKET_SIZE
  }

  function TriedSpot(h: Hashes, a: Service): Spot {
    Spot(GetTriedBucket(h, a), GetBucketPosition(h, a, false, GetTriedBucket(h, a)))
  }

  function NewSpot(h: Hashes, a: Service, bucket: nat): Spot {
    Spot(bucket, GetBucketPosition(h, a, true, bucket))
  }

  // ---------------------------------------------------------------- consistency

  /** Entry id is found through its address and through vRandom. */
  ghost predicate EntryIndexed(b: Book, id: Id, info: AddrInfo) {
    && 0 <= id < b.nIdCount && info.addr in b.mapAddr && b.mapAddr[info.addr] == id
    && 0 <= info.nRandomPos < |b.vRandom| && b.vRandom[info.nRandomPos] == id
  }

  ghost predicate AddrIndexed(m: map<Id, AddrInfo>, a: Service, id: Id) {
    id in m && m[id].addr == a
  }

  ghost predicate RandomIndexed(m: map<Id, AddrInfo>, p: int, id: Id) {
    id in m && m[id].nRandomPos == p
  }

  /** mapInfo, mapAddr and vRandom describe the same entries. */
  ghost predicate Indexed(b: Book) {
    && (forall id {:trigger EntryIndexed(b, id, b.mapInfo[id])} :: id in b.mapInfo ==> EntryIndexed(b, id, b.mapInfo[id]))
    && (forall a {:trigger AddrIndexed(b.mapInfo, a, b.mapAddr[a])} :: a in b.mapAddr ==> AddrIndexed(b.mapInfo, a, b.mapAddr[a]))
    && (forall p {:trigger RandomIndexed(b.mapInfo, p, b.vRandom[p])} :: 0 <= p < |b.vRandom| ==> RandomIndexed(b.mapInfo, p, b.vRandom[p]))
  }

  /** The positions of a table that hold id. */
  ghost function SpotsOf(t: map<Spot, Id>, id: Id): set<Spot> {
    set s | s in t && t[s] == id
  }

  ghost predicate NewEntryOk(h: Hashes, m: map<Id, AddrInfo>, s: Spot, id: Id) {
    id in m && !m[id].fInTried && s.bucket < NEW_BUCKET_COUNT && s == NewSpot(h, m[id].addr, s.bucket)
  }

  /** Each entry of the new table holds an address that belongs at that position. */
  ghost predicate NewTableOk(h: Hashes, b: Book) {
    forall s {:trigger NewEntryOk(h, b.mapInfo, s, b.vvNew[s])} :: s in b.vvNew ==> NewEntryOk(h, b.mapInfo, s, b.vvNew[s])
  }

  ghost predicate TriedEntryOk(h: Hashes, m: map<Id, AddrInfo>, s: Spot, id: Id) {
    id in m && m[id].fInTried && s == TriedSpot(h, m[id].addr)
  }

  ghost predicate IsTried(h: Hashes, t: map<Spot, Id>, id: Id, info: AddrInfo) {
    TriedSpot(h, info.addr) in t && t[TriedSpot(h, info.addr)] == id
  }

  ghost predicate TriedTableOk(h: Hashes, b: Book) {
    && (forall s {:trigger TriedEntryOk(h, b.mapInfo, s, b.vvTried[s])} :: s in b.vvTried ==> TriedEntryOk(h, b.mapInfo, s, b.vvTried[s]))
    && (forall id {:trigger IsTried(h, b.vvTried, id, b.mapInfo[id])} :: id in b.mapInfo && b.mapInfo[id].fInTried ==> IsTried(h, b.vvTried, id, b.mapInfo[id]))
  }

  /** What the counters of one entry say; an unplaced entry is in no table at the moment. */
  ghost predicate RefOk(info: AddrInfo, spots: int, unplaced: bool) {
    && info.nRefCount == spots && info.lastTry >= 0 && info.lastSuccess >= 0
    && (info.fInTried ==> info.nRefCount == 0 && !unplaced && info.lastSuccess > 0)
    && (!info.fInTried ==> if unplaced then info.nRefCount == 0 else 1 <= info.nRefCount <= NEW_BUCKETS_PER_ADDRESS)
  }

  ghost predicate RefAt(b: Book, unplaced: set<Id>, id: Id)
    requires id in b.mapInfo
  {
    RefOk(b.mapInfo[id], |SpotsOf(b.vvNew, id)|, id in unplaced)
  }

  ghost predicate RefsOk(b: Book, unplaced: set<Id>) {
    forall id {:trigger RefAt(b, unplaced, id)} :: id in b.mapInfo ==> RefAt(b, unplaced, id)
  }

  /** The entries counted as tried or new, of one network or of all. */
  ghost function Members(h: Hashes, m: map<Id, AddrInfo>, uncounted: set<Id>, tried: bool, net: Option<Network>): set<Id> {
    set id | id in m && id !in uncounted && m[id].fInTried == tried && (net.Some? ==> h.network(m[id].addr) == net.value)
  }

  function CountOf(counts: map<Network, Count>, net: Network): Count {
    if net in counts then counts[net] else Count(0, 0)
  }

  ghost function TrueCount(h: Hashes, m: map<Id, AddrInfo>, uncounted: set<Id>, net: Network): Count {
    Count(|Members(h, m, uncounted, false, Some(net))|, |Members(h, m, uncounted, true, Some(net))|)
  }

  /** nNew, nTried and the counts per network count the entries, except those in `uncounted`. */
  ghost predicate Tallied(h: Hashes, b: Book, uncounted: set<Id>) {
    && b.nNew == |Members(h, b.mapInfo, uncounted, false, None)|
    && b.nTried == |Members(h, b.mapInfo, uncounted, true, None)|
    && (forall net: Network :: CountOf(b.counts, net) == TrueCount(h, b.mapInfo, uncounted, net))
  }

  /** Whoever is recorded as colliding and still known collides with an occupied position (or a hole about to be filled). */
  ghost predicate CollisionsOk(h: Hashes, b: Book, holes: set<Spot>) {
    forall id :: id in b.collisions ==>
      && 0 <= id < b.nIdCount
      && (id in b.mapInfo ==> TriedSpot(h, b.mapInfo[id].addr) in b.vvTried || TriedSpot(h, b.mapInfo[id].addr) in holes)
  }

  ghost predicate Inv(h: Hashes, b: Book, unplaced: set<Id>, uncounted: set<Id>) {
    && b.nIdCount >= 0 && Indexed(b) && NewTableOk(h, b) && TriedTableOk(h, b) && RefsOk(b, unplaced)
    && Tallied(h, b, uncounted)
  }

  /** What holds between operations. */
  ghost predicate Consistent(h: Hashes, b: Book) {
    Inv(h, b, {}, {}) && CollisionsOk(h, b, {})
  }

  /** No tried position is emptied, and an id that is gone or that an address had is not given to another. */
  ghost predicate Keeps(b: Book, b': Book) {
    && b'.nIdCount >= b.nIdCount && (forall s :: s in b.vvTried ==> s in b'.vvTried)
    && (forall id :: id in b'.mapInfo && id < b.nIdCount ==> id in b.mapInfo && b'.mapInfo[id].addr == b.mapInfo[id].addr)
  }

  // ---------------------------------------------------------------- counting

  /** Changing one entry moves it between the counted sets. */
  lemma MembersUpdate(h: Hashes, m: map<Id, AddrInfo>, skip: set<Id>, tried: bool, net: Option<Network>, id: Id, info: AddrInfo, skip': set<Id>)
    requires skip' - {id} == skip - {id}
    ensures var was, now := Members(h, m, skip, tried, net), Members(h, m[id := info], skip', tried, net);
      && now - {id} == was - {id}
      && (id in now <==> id !in skip' && info.fInTried == tried && (net.Some? ==> h.network(info.addr) == net.value))
  {
    var was, now := Members(h, m, skip, tried, net), Members(h, m[id := info], skip', tried, net);
    forall j | j != id ensures j in was <==> j in now {
      assert j in skip <==> j in skip' by {
        assert j in skip' - {id} <==> j in skip - {id};
      }
    }
  }

  lemma SizeChange(was: set<Id>, now: set<Id>, id: Id)
    requires now - {id} == was - {id}
    ensures |now| - (if id in now then 1 else 0) == |was| - (if id in was then 1 else 0)
  {
    if id in now { assert now == (now - {id}) + {id}; } else { assert now - {id} == now; }
    if id in was { assert was == (was - {id}) + {id}; } else { assert was - {id} == was; }
  }

  function One(p: bool): int {
    if p then 1 else 0
  }

  /** How the tally changes when entry id becomes info and is (un)counted. */
  lemma TallyUpdate(h: Hashes, m: map<Id, AddrInfo>, skip: set<Id>, tried: bool, net: Option<Network>, id: Id, info: AddrInfo, skip': set<Id>)
    requires skip' - {id} == skip - {id}
    ensures |Members(h, m[id := info], skip', tried, net)| == |Members(h, m, skip, tried, net)|
      - One(id in Members(h, m, skip, tried, net))
      + One(id !in skip' && info.fInTried == tried && (net.Some? ==> h.network(info.addr) == net.value))
  {
    MembersUpdate(h, m, skip, tried, net, id, info, skip');
    SizeChange(Members(h, m, skip, tried, net), Members(h, m[id := info], skip', tried, net), id);
  }

  lemma TallyRemove(h: Hashes, m: map<Id, AddrInfo>, skip: set<Id>, tried: bool, net: Option<Network>, id: Id)
    ensures |Members(h, m - {id}, skip, tried, net)| == |Members(h, m, skip, tried, net)| - One(id in Members(h, m, skip, tried, net))
  {
    assert Members(h, m - {id}, skip, tried, net) - {id} == Members(h, m, skip, tried, net) - {id};
    SizeChange(Members(h, m, skip, tried, net), Members(h, m - {id}, skip, tried, net), id);
  }

  /** One more or one less in one network. */
  function Bumped(counts: map<Network, Count>, net: Network, dNew: int, dTried: int): map<Network, Count> {
    var c := CountOf(counts, net);
    counts[net := Count(c.nNew + dNew, c.nTried + dTried)]
  }

  /** Counting an entry, or no longer counting it. */
  lemma TalliedUpdate(h: Hashes, b: Book, b': Book, skip: set<Id>, skip': set<Id>, id: Id, info: AddrInfo)
    requires Tallied(h, b, skip) && skip' - {id} == skip - {id} && b'.mapInfo == b.mapInfo[id := info]
    requires id in b.mapInfo ==> b.mapInfo[id].addr == info.addr
    requires var was := id in b.mapInfo && id !in skip;
      var dNew := One(id !in skip' && !info.fInTried) - One(was && !b.mapInfo[id].fInTried);
      var dTried := One(id !in skip' && info.fInTried) - One(was && b.mapInfo[id].fInTried);
      && b'.nNew == b.nNew + dNew && b'.nTried == b.nTried + dTried
      && ((b'.counts == b.counts && dNew == dTried == 0) || b'.counts == Bumped(b.counts, h.network(info.addr), dNew, dTried))
    ensures Tallied(h, b', skip')
  {
    TallyUpdate(h, b.mapInfo, skip, false, None, id, info, skip');
    TallyUpdate(h, b.mapInfo, skip, true, None, id, info, skip');
    forall net: Network ensures CountOf(b'.counts, net) == TrueCount(h, b'.mapInfo, skip', net) {
      TallyUpdate(h, b.mapInfo, skip, false, Some(net), id, info, skip');
      TallyUpdate(h, b.mapInfo, skip, true, Some(net), id, info, skip');
      var c := CountOf(b.counts, net);
    }
  }

  lemma TalliedRemove(h: Hashes, b: Book, b': Book, skip: set<Id>, id: Id)
    requires Tallied(h, b, skip) && id in b.mapInfo && id !in skip && !b.mapInfo[id].fInTried
    requires b'.mapInfo == b.mapInfo - {id} && b'.nNew == b.nNew - 1 && b'.nTried == b.nTried
    requires b'.counts == Bumped(b.counts, h.network(b.mapInfo[id].addr), -1, 0)
    ensures Tallied(h, b', skip)
  {
    TallyRemove(h, b.mapInfo, skip, false, None, id);
    TallyRemove(h, b.mapInfo, skip, true, None, id);
    forall net: Network ensures CountOf(b'.counts, net) == TrueCount(h, b'.mapInfo, skip, net) {
      TallyRemove(h, b.mapInfo, skip, false, Some(net), id);
      TallyRemove(h, b.mapInfo, skip, true, Some(net), id);
      var c := CountOf(b.counts, net);
    }
  }

  /** Entries may change in what is not counted. */
  lemma TalliedSame(h: Hashes, b: Book, b': Book, skip: set<Id>)
    requires Tallied(h, b, skip) && b'.nNew == b.nNew && b'.nTried == b.nTried && b'.counts == b.counts
    requires SameKinds(b.mapInfo, b'.mapInfo)
    ensures Tallied(h, b', skip)
  {
    MembersSame(h, b.mapInfo, b'.mapInfo, skip, false, None);
    MembersSame(h, b.mapInfo, b'.mapInfo, skip, true, None);
    forall net: Network ensures CountOf(b'.counts, net) == TrueCount(h, b'.mapInfo, skip, net) {
      MembersSame(h, b.mapInfo, b'.mapInfo, skip, false, Some(net));
      MembersSame(h, b.mapInfo, b'.mapInfo, skip, true, Some(net));
      var c := CountOf(b.counts, net);
    }
  }

  /** The same entries, as far as counting is concerned. */
  ghost predicate SameKinds(m: map<Id, AddrInfo>, m': map<Id, AddrInfo>) {
    && (forall id :: id in m' <==> id in m)
    && (forall id :: id in m ==> m'[id].addr == m[id].addr && m'[id].fInTried == m[id].fInTried)
  }

  lemma MembersSame(h: Hashes, m: map<Id, AddrInfo>, m': map<Id, AddrInfo>, skip: set<Id>, tried: bool, net: Option<Network>)
    requires SameKinds(m, m')
    ensures Members(h, m', skip, tried, net) == Members(h, m, skip, tried, net)
  {
    forall id: Id ensures id in Members(h, m', skip, tried, net) <==> id in Members(h, m, skip, tried, net) {
      if id in m { assert id in m' && m'[id].addr == m[id].addr; }
      if id in m' { assert id in m; }
    }
  }

  // ---------------------------------------------------------------- steps that leave the tables alone

  /** m' holds the same entries as m where tables, references and counts are concerned. */
  ghost predicate SameShape(m: map<Id, AddrInfo>, m': map<Id, AddrInfo>) {
    && (forall id :: id in m' <==> id in m)
    && (forall id :: id in m ==>
        && m'[id].addr == m[id].addr && m'[id].fInTried == m[id].fInTried && m'[id].nRefCount == m[id].nRefCount
        && m'[id].lastTry >= 0 && m'[id].lastSuccess >= 0 && (m[id].fInTried ==> m'[id].lastSuccess > 0))
  }

  lemma ShapeInv(h: Hashes, b: Book, b': Book, unplaced: set<Id>, uncounted: set<Id>)
    requires Inv(h, b, unplaced, uncounted) && SameShape(b.mapInfo, b'.mapInfo) && Indexed(b')
    requires b' == b.(mapInfo := b'.mapInfo, vRandom := b'.vRandom)
    ensures Inv(h, b', unplaced, uncounted)
    ensures forall holes: set<Spot> :: CollisionsOk(h, b, holes) ==> CollisionsOk(h, b', holes)
  {
    TalliedSame(h, b, b', uncounted);
    ShapeTables(h, b, b', unplaced);
  }

  lemma ShapeTables(h: Hashes, b: Book, b': Book, unplaced: set<Id>)
    requires NewTableOk(h, b) && TriedTableOk(h, b) && RefsOk(b, unplaced) && SameShape(b.mapInfo, b'.mapInfo)
    requires b'.vvNew == b.vvNew && b'.vvTried == b.vvTried
    ensures NewTableOk(h, b') && TriedTableOk(h, b') && RefsOk(b', unplaced)
  {
    forall s | s in b'.vvNew ensures NewEntryOk(h, b'.mapInfo, s, b'.vvNew[s]) {
      assert NewEntryOk(h, b.mapInfo, s, b.vvNew[s]);
    }
    forall s | s in b'.vvTried ensures TriedEntryOk(h, b'.mapInfo, s, b'.vvTried[s]) {
      assert TriedEntryOk(h, b.mapInfo, s, b.vvTried[s]);
    }
    forall j | j in b'.mapInfo && b'.mapInfo[j].fInTried ensures IsTried(h, b'.vvTried, j, b'.mapInfo[j]) {
      assert IsTried(h, b.vvTried, j, b.mapInfo[j]);
    }
    forall j | j in b'.mapInfo ensures RefAt(b', unplaced, j) {
      assert RefAt(b, unplaced, j);
    }
  }

  ghost predicate SameKind(x: AddrInfo, y: AddrInfo) {
    y.addr == x.addr && y.fInTried == x.fInTried && y.nRefCount == x.nRefCount
  }

  /** SwapRandom. */
  function SwappedRandom(b: Book, p1: int, p2: int): Book
    requires 0 <= p1 < |b.vRandom| && 0 <= p2 < |b.vRandom| && b.vRandom[p1] in b.mapInfo && b.vRandom[p2] in b.mapInfo
  {
    if p1 == p2 then b
    else
      var id1, id2 := b.vRandom[p1], b.vRandom[p2];
      var m := b.mapInfo[id1 := b.mapInfo[id1].(nRandomPos := p2)];
      b.(mapInfo := m[id2 := m[id2].(nRandomPos := p1)], vRandom := b.vRandom[p1 := id2][p2 := id1])
  }

  /** Everything but the position in vRandom. */
  ghost predicate SameButPos(x: AddrInfo, y: AddrInfo) {
    y == x.(nRandomPos := y.nRandomPos)
  }

  lemma SwappedIndexed(b: Book, p1: int, p2: int)
    requires Indexed(b) && 0 <= p1 < |b.vRandom| && 0 <= p2 < |b.vRandom| && p1 != p2
    ensures b.vRandom[p1] in b.mapInfo && b.vRandom[p2] in b.mapInfo && Indexed(SwappedRandom(b, p1, p2))
  {
    SwappedEntries(b, p1, p2);
    var b' := SwappedRandom(b, p1, p2);
    assert RandomIndexed(b.mapInfo, p1, b.vRandom[p1]) && RandomIndexed(b.mapInfo, p2, b.vRandom[p2]);
    forall p | 0 <= p < |b'.vRandom| ensures RandomIndexed(b'.mapInfo, p, b'.vRandom[p]) {
      assert RandomIndexed(b.mapInfo, p, b.vRandom[p]);
    }
    forall id | id in b'.mapInfo ensures EntryIndexed(b', id, b'.mapInfo[id]) {
      assert EntryIndexed(b, id, b.mapInfo[id]);
    }
    forall a | a in b'.mapAddr ensures AddrIndexed(b'.mapInfo, a, b'.mapAddr[a]) {
      assert AddrIndexed(b.mapInfo, a, b.mapAddr[a]);
    }
  }

  lemma SwappedInv(h: Hashes, b: Book, p1: int, p2: int, unplaced: set<Id>, uncounted: set<Id>) returns (b': Book)
    requires Inv(h, b, unplaced, uncounted) && 0 <= p1 < |b.vRandom| && 0 <= p2 < |b.vRandom|
    ensures b.vRandom[p1] in b.mapInfo && b.vRandom[p2] in b.mapInfo && b' == SwappedRandom(b, p1, p2)
    ensures Inv(h, b', unplaced, uncounted)
  {
    SwappedEntries(b, p1, p2);
    b' := SwappedRandom(b, p1, p2);
    if p1 != p2 {
      SwappedIndexed(b, p1, p2);
      SwappedShape(h, b, p1, p2, unplaced);
      ShapeInv(h, b, b', unplaced, uncounted);
    }
  }

  lemma SwappedEntries(b: Book, p1: int, p2: int)
    requires Indexed(b) && 0 <= p1 < |b.vRandom| && 0 <= p2 < |b.vRandom|
    ensures b.vRandom[p1] in b.mapInfo && b.vRandom[p2] in b.mapInfo
    ensures var b' := SwappedRandom(b, p1, p2);
      && (forall id :: id in b'.mapInfo <==> id in b.mapInfo)
      && (forall id :: id in b.mapInfo ==> SameButPos(b.mapInfo[id], b'.mapInfo[id]))
      && b'.mapInfo[b.vRandom[p1]].nRandomPos == p2 && |b'.vRandom| == |b.vRandom|
      && b' == b.(mapInfo := b'.mapInfo, vRandom := b'.vRandom)
  {
    assert RandomIndexed(b.mapInfo, p1, b.vRandom[p1]) && RandomIndexed(b.mapInfo, p2, b.vRandom[p2]);
  }

  lemma SwappedShape(h: Hashes, b: Book, p1: int, p2: int, unplaced: set<Id>)
    requires Indexed(b) && RefsOk(b, unplaced) && 0 <= p1 < |b.vRandom| && 0 <= p2 < |b.vRandom|
    requires b.vRandom[p1] in b.mapInfo && b.vRandom[p2] in b.mapInfo
    ensures SameShape(b.mapInfo, SwappedRandom(b, p1, p2).mapInfo)
  {
    SwappedEntries(b, p1, p2);
    forall id | id in b.mapInfo ensures SameButPos(b.mapInfo[id], SwappedRandom(b, p1, p2).mapInfo[id]) {
      assert RefAt(b, unplaced, id);
    }
    assert forall id :: id in b.mapInfo ==> RefAt(b, unplaced, id);
  }

  /** Delete. */
  function Deleted(h: Hashes, b: Book, id: Id): Book
    requires id in b.mapInfo && 0 <= b.mapInfo[id].nRandomPos < |b.vRandom|
    requires b.vRandom[b.mapInfo[id].nRandomPos] in b.mapInfo && b.vRandom[|b.vRandom| - 1] in b.mapInfo
  {
    Removed(h, SwappedRandom(b, b.mapInfo[id].nRandomPos, |b.vRandom| - 1), id)
  }

  /** Take out the entry that is last in vRandom. */
  function Removed(h: Hashes, b: Book, id: Id): Book
    requires id in b.mapInfo && |b.vRandom| > 0
  {
    var a := b.mapInfo[id].addr;
    b.(counts := Bumped(b.counts, h.network(a), -1, 0), vRandom := b.vRandom[..|b.vRandom| - 1],
       mapAddr := b.mapAddr - {a}, mapInfo := b.mapInfo - {id}, nNew := b.nNew - 1)
  }

  lemma DeletedIndexed(b: Book, id: Id, b': Book)
    requires Indexed(b) && id in b.mapInfo && 0 < |b.vRandom| && b.mapInfo[id].nRandomPos == |b.vRandom| - 1
    requires b'.mapInfo == b.mapInfo - {id} && b'.mapAddr == b.mapAddr - {b.mapInfo[id].addr}
    requires b'.vRandom == b.vRandom[..|b.vRandom| - 1] && b'.nIdCount == b.nIdCount
    ensures Indexed(b')
  {
    assert EntryIndexed(b, id, b.mapInfo[id]);
    forall j | j in b'.mapInfo ensures EntryIndexed(b', j, b'.mapInfo[j]) {
      assert EntryIndexed(b, j, b.mapInfo[j]);
    }
    forall p | 0 <= p < |b'.vRandom| ensures RandomIndexed(b'.mapInfo, p, b'.vRandom[p]) {
      assert RandomIndexed(b.mapInfo, p, b.vRandom[p]);
    }
    forall a | a in b'.mapAddr ensures AddrIndexed(b'.mapInfo, a, b'.mapAddr[a]) {
      assert AddrIndexed(b.mapInfo, a, b.mapAddr[a]);
    }
  }

  /** An entry that is in no table can be deleted. */
  lemma DeletedInv(h: Hashes, b: Book, id: Id, unplaced: set<Id>, uncounted: set<Id>)
    requires Inv(h, b, unplaced, uncounted) && id in b.mapInfo && id in unplaced && id !in uncounted
    ensures CanDelete(b, id)
    ensures var b' := Deleted(h, b, id);
      && Inv(h, b', unplaced - {id}, uncounted)
      && (forall j :: j in b'.mapInfo <==> j in b.mapInfo && j != id)
      && (forall j :: j in b'.mapInfo ==> SameButPos(b.mapInfo[j], b'.mapInfo[j]))
      && b'.vvNew == b.vvNew && b'.vvTried == b.vvTried && b'.collisions == b.collisions && b'.nIdCount == b.nIdCount
  {
    DeletedFrame(h, b, id);
    DeletedStep(h, b, id, unplaced, uncounted);
  }

  /** The other entries keep everything but their place in vRandom, and the tables stay. */
  lemma DeletedFrame(h: Hashes, b: Book, id: Id)
    requires Indexed(b) && id in b.mapInfo
    ensures CanDelete(b, id)
    ensures var b' := Deleted(h, b, id);
      && (forall j :: j in b'.mapInfo <==> j in b.mapInfo && j != id)
      && (forall j :: j in b'.mapInfo ==> SameButPos(b.mapInfo[j], b'.mapInfo[j]))
      && b'.vvNew == b.vvNew && b'.vvTried == b.vvTried && b'.collisions == b.collisions && b'.nIdCount == b.nIdCount
  {
    CanAlwaysDelete(b, id);
    SwappedEntries(b, b.mapInfo[id].nRandomPos, |b.vRandom| - 1);
  }

  lemma DeletedStep(h: Hashes, b: Book, id: Id, unplaced: set<Id>, uncounted: set<Id>)
    requires Inv(h, b, unplaced, uncounted) && CanDelete(b, id) && id in unplaced && id !in uncounted
    ensures Inv(h, Deleted(h, b, id), unplaced - {id}, uncounted)
  {
    LastInRandom(b, id);
    var b1 := SwappedInv(h, b, b.mapInfo[id].nRandomPos, |b.vRandom| - 1, unplaced, uncounted);
    RemovedInv(h, b1, id, unplaced, uncounted);
  }

  lemma LastInRandom(b: Book, id: Id)
    requires Indexed(b) && CanDelete(b, id)
    ensures var b1 := SwappedRandom(b, b.mapInfo[id].nRandomPos, |b.vRandom| - 1);
      id in b1.mapInfo && 0 < |b1.vRandom| == |b.vRandom| && b1.mapInfo[id].nRandomPos == |b1.vRandom| - 1
  {
    assert EntryIndexed(b, id, b.mapInfo[id]) && RandomIndexed(b.mapInfo, |b.vRandom| - 1, b.vRandom[|b.vRandom| - 1]);
  }

  /** Removing the entry that is last in vRandom and in no table. */
  lemma RemovedInv(h: Hashes, b: Book, id: Id, unplaced: set<Id>, uncounted: set<Id>)
    requires id in b.mapInfo && id in unplaced && id !in uncounted
    requires 0 < |b.vRandom| && b.mapInfo[id].nRandomPos == |b.vRandom| - 1
    ensures Inv(h, b, unplaced, uncounted) ==> Inv(h, Removed(h, b, id), unplaced - {id}, uncounted)
  {
    if Inv(h, b, unplaced, uncounted) {
      var b' := Removed(h, b, id);
      assert RefAt(b, unplaced, id);
      DeletedIndexed(b, id, b');
      RemovedTables(h, b, id, b', unplaced);
      TalliedRemove(h, b, b', uncounted, id);
    }
  }

  /** Removing an entry that is in no table. */
  lemma RemovedTables(h: Hashes, b: Book, id: Id, b': Book, unplaced: set<Id>)
    requires NewTableOk(h, b) && TriedTableOk(h, b) && RefsOk(b, unplaced) && id in b.mapInfo && id in unplaced
    requires b'.mapInfo == b.mapInfo - {id} && b'.vvNew == b.vvNew && b'.vvTried == b.vvTried
    ensures NewTableOk(h, b') && TriedTableOk(h, b') && RefsOk(b', unplaced - {id})
  {
    assert RefAt(b, unplaced, id);
    NowhereNew(b, id);
    forall s | s in b'.vvNew ensures NewEntryOk(h, b'.mapInfo, s, b'.vvNew[s]) {
      assert NewEntryOk(h, b.mapInfo, s, b.vvNew[s]);
    }
    forall s | s in b'.vvTried ensures TriedEntryOk(h, b'.mapInfo, s, b'.vvTried[s]) {
      assert TriedEntryOk(h, b.mapInfo, s, b.vvTried[s]);
    }
    forall j | j in b'.mapInfo && b'.mapInfo[j].fInTried ensures IsTried(h, b'.vvTried, j, b'.mapInfo[j]) {
      assert IsTried(h, b.vvTried, j, b.mapInfo[j]);
    }
    forall j | j in b'.mapInfo ensures RefAt(b', unplaced - {id}, j) {
      assert RefAt(b, unplaced, j);
    }
  }

  lemma NowhereNew(b: Book, id: Id)
    requires |SpotsOf(b.vvNew, id)| == 0
    ensures forall s :: s in b.vvNew ==> b.vvNew[s] != id
  {
    assert forall s :: s in b.vvNew ==> (b.vvNew[s] == id <==> s in SpotsOf(b.vvNew, id));
  }

  /** Create. */
  function Created(h: Hashes, b: Book, addr: Service, nTime: int, services: set<nat>, source: Source): Book {
    b.(nIdCount := b.nIdCount + 1,
       mapInfo := b.mapInfo[b.nIdCount := AddrInfo(addr, source, nTime, services, 0, 0, 0, 0, 0, false, |b.vRandom|)],
       mapAddr := b.mapAddr[addr := b.nIdCount], vRandom := b.vRandom + [b.nIdCount], nNew := b.nNew + 1,
       counts := Bumped(b.counts, h.network(addr), 1, 0))
  }

  lemma CreatedInv(h: Hashes, b: Book, addr: Service, nTime: int, services: set<nat>, source: Source, holes: set<Spot>)
    requires Inv(h, b, {}, {}) && CollisionsOk(h, b, holes) && addr !in b.mapAddr
    ensures Inv(h, Created(h, b, addr, nTime, services, source), {b.nIdCount}, {})
    ensures CollisionsOk(h, Created(h, b, addr, nTime, services, source), holes)
  {
    var b', id := Created(h, b, addr, nTime, services, source), b.nIdCount;
    CreatedIndexed(h, b, addr, nTime, services, source);
    TalliedUpdate(h, b, b', {}, {}, id, b'.mapInfo[id]);
    AddedTables(h, b, id, b');
  }

  lemma CreatedIndexed(h: Hashes, b: Book, addr: Service, nTime: int, services: set<nat>, source: Source)
    requires Indexed(b) && b.nIdCount >= 0 && addr !in b.mapAddr
    ensures b.nIdCount !in b.mapInfo && Indexed(Created(h, b, addr, nTime, services, source))
  {
    var b' := Created(h, b, addr, nTime, services, source);
    assert b.nIdCount in b.mapInfo ==> EntryIndexed(b, b.nIdCount, b.mapInfo[b.nIdCount]);
    forall p | 0 <= p < |b'.vRandom| ensures RandomIndexed(b'.mapInfo, p, b'.vRandom[p]) {
      if p < |b.vRandom| { assert RandomIndexed(b.mapInfo, p, b.vRandom[p]); }
    }
    forall id | id in b'.mapInfo ensures EntryIndexed(b', id, b'.mapInfo[id]) {
      if id != b.nIdCount { assert EntryIndexed(b, id, b.mapInfo[id]); }
    }
    forall a | a in b'.mapAddr ensures AddrIndexed(b'.mapInfo, a, b'.mapAddr[a]) {
      if a != addr { assert AddrIndexed(b.mapInfo, a, b.mapAddr[a]); }
    }
  }

  lemma AddedTables(h: Hashes, b: Book, id: Id, b': Book)
    requires NewTableOk(h, b) && TriedTableOk(h, b) && RefsOk(b, {}) && id !in b.mapInfo
    requires id in b'.mapInfo && b'.mapInfo == b.mapInfo[id := b'.mapInfo[id]] && RefOk(b'.mapInfo[id], 0, true)
    requires b'.vvNew == b.vvNew && b'.vvTried == b.vvTried
    ensures NewTableOk(h, b') && TriedTableOk(h, b') && RefsOk(b', {id})
  {
    assert SpotsOf(b'.vvNew, id) == {} by {
      forall s | s in b'.vvNew ensures b'.vvNew[s] != id {
        assert NewEntryOk(h, b.mapInfo, s, b.vvNew[s]);
      }
    }
    forall s | s in b'.vvNew ensures NewEntryOk(h, b'.mapInfo, s, b'.vvNew[s]) {
      assert NewEntryOk(h, b.mapInfo, s, b.vvNew[s]);
    }
    forall s | s in b'.vvTried ensures TriedEntryOk(h, b'.mapInfo, s, b'.vvTried[s]) {
      assert TriedEntryOk(h, b.mapInfo, s, b.vvTried[s]);
    }
    forall j | j in b'.mapInfo ensures RefAt(b', {id}, j) {
      if j != id { assert RefAt(b, {}, j); }
    }
    forall j | j in b'.mapInfo && b'.mapInfo[j].fInTried ensures IsTried(h, b'.vvTried, j, b'.mapInfo[j]) {
      assert IsTried(h, b.vvTried, j, b.mapInfo[j]);
    }
  }

  // ---------------------------------------------------------------- steps on the new table

  lemma SpotAdded(t: map<Spot, Id>, s: Spot, id: Id)
    requires s !in t
    ensures |SpotsOf(t[s := id], id)| == |SpotsOf(t, id)| + 1
    ensures forall j :: j != id ==> SpotsOf(t[s := id], j) == SpotsOf(t, j)
  {
    assert SpotsOf(t[s := id], id) == SpotsOf(t, id) + {s};
  }

  lemma SpotRemoved(t: map<Spot, Id>, s: Spot, id: Id)
    requires s in t && t[s] == id
    ensures |SpotsOf(t - {s}, id)| == |SpotsOf(t, id)| - 1
    ensures forall j :: j != id ==> SpotsOf(t - {s}, j) == SpotsOf(t, j)
  {
    assert SpotsOf(t, id) == SpotsOf(t - {s}, id) + {s};
  }

  /** Take id out of one position of the new table. */
  function DroppedSpot(b: Book, s: Spot, id: Id): Book
    requires id in b.mapInfo
  {
    b.(vvNew := b.vvNew - {s}, mapInfo := b.mapInfo[id := b.mapInfo[id].(nRefCount := b.mapInfo[id].nRefCount - 1)])
  }

  /** Put id into one position of the new table. */
  function AddedSpot(b: Book, s: Spot, id: Id): Book
    requires id in b.mapInfo
  {
    b.(vvNew := b.vvNew[s := id], mapInfo := b.mapInfo[id := b.mapInfo[id].(nRefCount := b.mapInfo[id].nRefCount + 1)])
  }

  ghost function Mark(ids: set<Id>, id: Id, on: bool): set<Id> {
    if on then ids + {id} else ids - {id}
  }

  /** Changing the counters of one entry does not touch the indexes or the tally. */
  lemma CountersIndexed(h: Hashes, b: Book, b': Book, id: Id, uncounted: set<Id>)
    requires Indexed(b) && Tallied(h, b, uncounted) && id in b.mapInfo
    requires b' == b.(vvNew := b'.vvNew, vvTried := b'.vvTried, collisions := b'.collisions, mapInfo := b'.mapInfo)
    requires id in b'.mapInfo && b'.mapInfo == b.mapInfo[id := b'.mapInfo[id]]
    requires b'.mapInfo[id].addr == b.mapInfo[id].addr && b'.mapInfo[id].nRandomPos == b.mapInfo[id].nRandomPos && b'.mapInfo[id].fInTried == b.mapInfo[id].fInTried
    ensures Indexed(b') && Tallied(h, b', uncounted)
  {
    TalliedSame(h, b, b', uncounted);
    forall j | j in b'.mapInfo ensures EntryIndexed(b', j, b'.mapInfo[j]) {
      assert EntryIndexed(b, j, b.mapInfo[j]);
    }
    forall a | a in b'.mapAddr ensures AddrIndexed(b'.mapInfo, a, b'.mapAddr[a]) {
      assert AddrIndexed(b.mapInfo, a, b.mapAddr[a]);
    }
    forall p | 0 <= p < |b'.vRandom| ensures RandomIndexed(b'.mapInfo, p, b'.vRandom[p]) {
      assert RandomIndexed(b.mapInfo, p, b.vRandom[p]);
    }
  }

  lemma DroppedInv(h: Hashes, b: Book, s: Spot, id: Id, unplaced: set<Id>, uncounted: set<Id>)
    requires Inv(h, b, unplaced, uncounted) && s in b.vvNew && b.vvNew[s] == id
    ensures id in b.mapInfo && b.mapInfo[id].nRefCount > 0 && !b.mapInfo[id].fInTried && id !in unplaced
    ensures Inv(h, DroppedSpot(b, s, id), Mark(unplaced, id, b.mapInfo[id].nRefCount == 1), uncounted)
  {
    assert NewEntryOk(h, b.mapInfo, s, id);
    SpotRemoved(b.vvNew, s, id);
    assert s in SpotsOf(b.vvNew, id);
    assert RefAt(b, unplaced, id);
    var b' := DroppedSpot(b, s, id);
    CountersIndexed(h, b, b', id, uncounted);
    forall j | j in b'.mapInfo ensures RefAt(b', Mark(unplaced, id, b.mapInfo[id].nRefCount == 1), j) {
      assert RefAt(b, unplaced, j);
    }
    SameTried(h, b, b', id);
    DroppedNew(h, b, s, id);
  }

  lemma DroppedNew(h: Hashes, b: Book, s: Spot, id: Id)
    requires NewTableOk(h, b) && s in b.vvNew && b.vvNew[s] == id && id in b.mapInfo && b.mapInfo[id].nRefCount > 0
    ensures NewTableOk(h, DroppedSpot(b, s, id))
  {
    var b' := DroppedSpot(b, s, id);
    forall t | t in b'.vvNew ensures NewEntryOk(h, b'.mapInfo, t, b'.vvNew[t]) {
      assert NewEntryOk(h, b.mapInfo, t, b.vvNew[t]);
    }
  }

  lemma SameTried(h: Hashes, b: Book, b': Book, id: Id)
    requires TriedTableOk(h, b) && id in b.mapInfo && id in b'.mapInfo && b'.mapInfo == b.mapInfo[id := b'.mapInfo[id]]
    requires b'.mapInfo[id].addr == b.mapInfo[id].addr && b'.mapInfo[id].fInTried == b.mapInfo[id].fInTried && b'.vvTried == b.vvTried
    ensures TriedTableOk(h, b')
  {
    forall s | s in b'.vvTried ensures TriedEntryOk(h, b'.mapInfo, s, b'.vvTried[s]) {
      assert TriedEntryOk(h, b.mapInfo, s, b.vvTried[s]);
    }
    forall j | j in b'.mapInfo && b'.mapInfo[j].fInTried ensures IsTried(h, b'.vvTried, j, b'.mapInfo[j]) {
      assert IsTried(h, b.vvTried, j, b.mapInfo[j]);
    }
  }

  lemma AddedInv(h: Hashes, b: Book, s: Spot, id: Id, unplaced: set<Id>, uncounted: set<Id>)
    requires Inv(h, b, unplaced, uncounted) && s !in b.vvNew && id in b.mapInfo && !b.mapInfo[id].fInTried
    requires b.mapInfo[id].nRefCount < NEW_BUCKETS_PER_ADDRESS && s.bucket < NEW_BUCKET_COUNT && s == NewSpot(h, b.mapInfo[id].addr, s.bucket)
    ensures Inv(h, AddedSpot(b, s, id), unplaced - {id}, uncounted)
  {
    SpotAdded(b.vvNew, s, id);
    assert RefAt(b, unplaced, id);
    var b' := AddedSpot(b, s, id);
    CountersIndexed(h, b, b', id, uncounted);
    forall j | j in b'.mapInfo ensures RefAt(b', unplaced - {id}, j) {
      assert RefAt(b, unplaced, j);
    }
    SameTried(h, b, b', id);
    AddedNew(h, b, s, id);
  }

  lemma AddedNew(h: Hashes, b: Book, s: Spot, id: Id)
    requires NewTableOk(h, b) && s !in b.vvNew && id in b.mapInfo && !b.mapInfo[id].fInTried
    requires s.bucket < NEW_BUCKET_COUNT && s == NewSpot(h, b.mapInfo[id].addr, s.bucket)
    ensures NewTableOk(h, AddedSpot(b, s, id))
  {
    var b' := AddedSpot(b, s, id);
    forall t | t in b'.vvNew ensures NewEntryOk(h, b'.mapInfo, t, b'.vvNew[t]) {
      if t != s { assert NewEntryOk(h, b.mapInfo, t, b.vvNew[t]); }
    }
  }

  /** ClearNew: empty a position, deleting its entry if that was the last reference. */
  function ClearedNew(h: Hashes, b: Book, s: Spot): Book
    requires s in b.vvNew ==> b.vvNew[s] in b.mapInfo
    requires s in b.vvNew && b.mapInfo[b.vvNew[s]].nRefCount == 1 ==> CanDelete(DroppedSpot(b, s, b.vvNew[s]), b.vvNew[s])
  {
    if s !in b.vvNew then b
    else
      var b1 := DroppedSpot(b, s, b.vvNew[s]);
      if b.mapInfo[b.vvNew[s]].nRefCount == 1 then Deleted(h, b1, b.vvNew[s]) else b1
  }

  predicate CanDelete(b: Book, id: Id) {
    && id in b.mapInfo && 0 <= b.mapInfo[id].nRandomPos < |b.vRandom|
    && b.vRandom[b.mapInfo[id].nRandomPos] in b.mapInfo && b.vRandom[|b.vRandom| - 1] in b.mapInfo
  }

  lemma CanAlwaysDelete(b: Book, id: Id)
    requires Indexed(b) && id in b.mapInfo
    ensures CanDelete(b, id)
  {
    assert EntryIndexed(b, id, b.mapInfo[id]);
    assert RandomIndexed(b.mapInfo, |b.vRandom| - 1, b.vRandom[|b.vRandom| - 1]);
  }

  /** Only the counters that depend on the tables differ: times, services, source and attempts are the same. */
  ghost predicate SameStats(x: AddrInfo, y: AddrInfo) {
    y == x.(nRefCount := y.nRefCount, fInTried := y.fInTried, nRandomPos := y.nRandomPos)
  }

  ghost predicate StatsAt(b: Book, b': Book, id: Id) {
    id in b'.mapInfo && id < b.nIdCount ==> id in b.mapInfo && SameStats(b.mapInfo[id], b'.mapInfo[id])
  }

  /** Nobody but the touched entries has changed its statistics. */
  ghost predicate StatsKept(b: Book, b': Book, touched: set<Id>) {
    && b'.nIdCount >= b.nIdCount
    && forall id {:trigger StatsAt(b, b', id)} :: id !in touched ==> StatsAt(b, b', id)
  }

  lemma StatsTrans(b: Book, b1: Book, b2: Book, touched: set<Id>)
    requires StatsKept(b, b1, touched) && StatsKept(b1, b2, {})
    ensures StatsKept(b, b2, touched)
  {
    forall id | id !in touched ensures StatsAt(b, b2, id) {
      assert StatsAt(b, b1, id) && StatsAt(b1, b2, id);
    }
  }

  /** Entries that are not in the cleared position survive. */
  ghost predicate Survives(b: Book, b': Book, id: Id) {
    id in b.mapInfo && id in b'.mapInfo && SameButPos(b.mapInfo[id], b'.mapInfo[id])
  }

  /** What clearing a position leaves. */
  ghost predicate Cleared(b: Book, s: Spot, b': Book) {
    && b'.vvNew == b.vvNew - {s} && b'.vvTried == b.vvTried && b'.nIdCount == b.nIdCount && b'.collisions == b.collisions
    && (forall id :: id in b.mapInfo && !(s in b.vvNew && b.vvNew[s] == id) ==> Survives(b, b', id))
    && (forall id :: id in b'.mapInfo ==> id in b.mapInfo && SameStats(b.mapInfo[id], b'.mapInfo[id]))
  }

  lemma ClearedStats(b: Book, s: Spot, b': Book)
    requires Cleared(b, s, b')
    ensures StatsKept(b, b', {})
  {
    assert forall id {:trigger StatsAt(b, b', id)} :: StatsAt(b, b', id);
  }

  lemma ClearedReady(h: Hashes, b: Book, s: Spot, unplaced: set<Id>, uncounted: set<Id>)
    requires Inv(h, b, unplaced, uncounted)
    ensures s in b.vvNew ==> b.vvNew[s] in b.mapInfo && b.mapInfo[b.vvNew[s]].nRefCount > 0
    ensures s in b.vvNew && b.mapInfo[b.vvNew[s]].nRefCount == 1 ==> CanDelete(DroppedSpot(b, s, b.vvNew[s]), b.vvNew[s])
  {
    if s in b.vvNew {
      var id := b.vvNew[s];
      DroppedInv(h, b, s, id, unplaced, uncounted);
      CanAlwaysDelete(DroppedSpot(b, s, id), id);
    }
  }

  /** Clearing a position of the new table keeps everything consistent. */
  lemma ClearedInv(h: Hashes, b: Book, s: Spot, unplaced: set<Id>, uncounted: set<Id>)
    requires Inv(h, b, unplaced, uncounted) && (s in b.vvNew ==> b.vvNew[s] !in uncounted)
    requires s in b.vvNew ==> b.vvNew[s] in b.mapInfo
    requires s in b.vvNew && b.mapInfo[b.vvNew[s]].nRefCount == 1 ==> CanDelete(DroppedSpot(b, s, b.vvNew[s]), b.vvNew[s])
    ensures Inv(h, ClearedNew(h, b, s), unplaced, uncounted) && Cleared(b, s, ClearedNew(h, b, s))
  {
    if s !in b.vvNew {
      NothingCleared(b, s);
    } else {
      var id := b.vvNew[s];
      DroppedInv(h, b, s, id, unplaced, uncounted);
      if b.mapInfo[id].nRefCount == 1 {
        LastDropped(h, b, s, id, unplaced, uncounted);
      } else {
        assert unplaced - {id} == unplaced;
        OneDropped(b, s, id);
      }
    }
  }

  lemma NothingCleared(b: Book, s: Spot)
    requires s !in b.vvNew
    ensures Cleared(b, s, b)
  {
    assert b.vvNew - {s} == b.vvNew;
  }

  lemma OneDropped(b: Book, s: Spot, id: Id)
    requires id in b.mapInfo && s in b.vvNew && b.vvNew[s] == id
    ensures Cleared(b, s, DroppedSpot(b, s, id))
  {
  }

  lemma LastDropped(h: Hashes, b: Book, s: Spot, id: Id, unplaced: set<Id>, uncounted: set<Id>)
    requires id in b.mapInfo && id !in unplaced && id !in uncounted && s in b.vvNew && b.vvNew[s] == id
    requires Inv(h, DroppedSpot(b, s, id), unplaced + {id}, uncounted)
    ensures CanDelete(DroppedSpot(b, s, id), id)
    ensures Inv(h, Deleted(h, DroppedSpot(b, s, id), id), unplaced, uncounted) && Cleared(b, s, Deleted(h, DroppedSpot(b, s, id), id))
  {
    var b1 := DroppedSpot(b, s, id);
    CanAlwaysDelete(b1, id);
    DeletedInv(h, b1, id, unplaced + {id}, uncounted);
    assert unplaced + {id} - {id} == unplaced;
    var b' := Deleted(h, b1, id);
    forall j | j in b.mapInfo && j != id ensures Survives(b, b', j) {
      assert SameButPos(b1.mapInfo[j], b'.mapInfo[j]);
    }
    forall j | j in b'.mapInfo ensures j in b.mapInfo && SameStats(b.mapInfo[j], b'.mapInfo[j]) {
      assert SameButPos(b1.mapInfo[j], b'.mapInfo[j]);
    }
  }

  // ---------------------------------------------------------------- between new and tried

  /** Stop or start counting a new entry. */
  function RecountedNew(h: Hashes, b: Book, id: Id, d: int): Book
    requires id in b.mapInfo
  {
    b.(nNew := b.nNew + d, counts := Bumped(b.counts, h.network(b.mapInfo[id].addr), d, 0))
  }

  lemma RecountedInv(h: Hashes, b: Book, id: Id, count: bool, unplaced: set<Id>, uncounted: set<Id>)
    requires Inv(h, b, unplaced, uncounted) && id in b.mapInfo && !b.mapInfo[id].fInTried && (id in uncounted <==> count)
    ensures Inv(h, RecountedNew(h, b, id, if count then 1 else -1), unplaced, Mark(uncounted, id, !count))
  {
    var b' := RecountedNew(h, b, id, if count then 1 else -1);
    assert b.mapInfo[id := b.mapInfo[id]] == b.mapInfo;
    TalliedUpdate(h, b, b', uncounted, Mark(uncounted, id, !count), id, b.mapInfo[id]);
    CopyIndexed(b, b');
    CopyRefs(b, b', unplaced);
  }

  lemma CopyRefs(b: Book, b': Book, unplaced: set<Id>)
    requires RefsOk(b, unplaced) && b'.mapInfo == b.mapInfo && b'.vvNew == b.vvNew
    ensures RefsOk(b', unplaced)
  {
    forall j | j in b'.mapInfo ensures RefAt(b', unplaced, j) {
      assert RefAt(b, unplaced, j);
    }
  }

  lemma CopyIndexed(b: Book, b': Book)
    requires Indexed(b) && b'.mapInfo == b.mapInfo && b'.mapAddr == b.mapAddr && b'.vRandom == b.vRandom && b'.nIdCount == b.nIdCount
    ensures Indexed(b')
  {
    forall j | j in b'.mapInfo ensures EntryIndexed(b', j, b'.mapInfo[j]) {
      assert EntryIndexed(b, j, b.mapInfo[j]);
    }
  }

  /** Take the entry out of the tried position. */
  function Evicted(h: Hashes, b: Book, s: Spot, id: Id): Book
    requires id in b.mapInfo
  {
    b.(mapInfo := b.mapInfo[id := b.mapInfo[id].(fInTried := false)], vvTried := b.vvTried - {s}, nTried := b.nTried - 1,
       counts := Bumped(b.counts, h.network(b.mapInfo[id].addr), 0, -1))
  }

  lemma FlippedIndexed(b: Book, b': Book, id: Id)
    requires Indexed(b) && id in b.mapInfo && id in b'.mapInfo && b'.mapInfo == b.mapInfo[id := b'.mapInfo[id]]
    requires b'.mapInfo[id].addr == b.mapInfo[id].addr && b'.mapInfo[id].nRandomPos == b.mapInfo[id].nRandomPos
    requires b'.mapAddr == b.mapAddr && b'.vRandom == b.vRandom && b'.nIdCount == b.nIdCount
    ensures Indexed(b')
  {
    forall j | j in b'.mapInfo ensures EntryIndexed(b', j, b'.mapInfo[j]) {
      assert EntryIndexed(b, j, b.mapInfo[j]);
    }
    forall a | a in b'.mapAddr ensures AddrIndexed(b'.mapInfo, a, b'.mapAddr[a]) {
      assert AddrIndexed(b.mapInfo, a, b.mapAddr[a]);
    }
    forall p | 0 <= p < |b'.vRandom| ensures RandomIndexed(b'.mapInfo, p, b'.vRandom[p]) {
      assert RandomIndexed(b.mapInfo, p, b.vRandom[p]);
    }
  }

  lemma EvictedInv(h: Hashes, b: Book, s: Spot, id: Id, unplaced: set<Id>, uncounted: set<Id>)
    requires Inv(h, b, unplaced, uncounted) && s in b.vvTried && b.vvTried[s] == id && id !in uncounted
    ensures id in b.mapInfo && b.mapInfo[id].fInTried && id !in unplaced
    ensures Inv(h, Evicted(h, b, s, id), unplaced + {id}, uncounted + {id})
  {
    assert TriedEntryOk(h, b.mapInfo, s, id);
    assert RefAt(b, unplaced, id);
    var b' := Evicted(h, b, s, id);
    FlippedIndexed(b, b', id);
    TalliedUpdate(h, b, b', uncounted, uncounted + {id}, id, b'.mapInfo[id]);
    EvictedTables(h, b, s, id, unplaced);
  }

  lemma EvictedTables(h: Hashes, b: Book, s: Spot, id: Id, unplaced: set<Id>)
    requires NewTableOk(h, b) && TriedTableOk(h, b) && RefsOk(b, unplaced) && id in b.mapInfo && s in b.vvTried && b.vvTried[s] == id
    ensures var b' := Evicted(h, b, s, id); NewTableOk(h, b') && TriedTableOk(h, b') && RefsOk(b', unplaced + {id})
  {
    var b' := Evicted(h, b, s, id);
    assert TriedEntryOk(h, b.mapInfo, s, id);
    forall t | t in b'.vvNew ensures NewEntryOk(h, b'.mapInfo, t, b'.vvNew[t]) {
      assert NewEntryOk(h, b.mapInfo, t, b.vvNew[t]);
    }
    forall t | t in b'.vvTried ensures TriedEntryOk(h, b'.mapInfo, t, b'.vvTried[t]) {
      assert TriedEntryOk(h, b.mapInfo, t, b.vvTried[t]);
    }
    forall j | j in b'.mapInfo && b'.mapInfo[j].fInTried ensures IsTried(h, b'.vvTried, j, b'.mapInfo[j]) {
      assert IsTried(h, b.vvTried, j, b.mapInfo[j]);
    }
    forall j | j in b'.mapInfo ensures RefAt(b', unplaced + {id}, j) {
      assert RefAt(b, unplaced, j);
    }
  }

  /** Put the entry into the tried position. */
  function Tried(h: Hashes, b: Book, s: Spot, id: Id): Book
    requires id in b.mapInfo
  {
    b.(vvTried := b.vvTried[s := id], nTried := b.nTried + 1, mapInfo := b.mapInfo[id := b.mapInfo[id].(fInTried := true)],
       counts := Bumped(b.counts, h.network(b.mapInfo[id].addr), 0, 1))
  }

  lemma TriedInv(h: Hashes, b: Book, s: Spot, id: Id, unplaced: set<Id>, uncounted: set<Id>)
    requires Inv(h, b, unplaced, uncounted) && s !in b.vvTried && id in b.mapInfo && id in unplaced && id in uncounted
    requires s == TriedSpot(h, b.mapInfo[id].addr) && b.mapInfo[id].lastSuccess > 0
    ensures Inv(h, Tried(h, b, s, id), unplaced - {id}, uncounted - {id})
  {
    assert RefAt(b, unplaced, id);
    var b' := Tried(h, b, s, id);
    FlippedIndexed(b, b', id);
    TalliedUpdate(h, b, b', uncounted, uncounted - {id}, id, b'.mapInfo[id]);
    TriedTables(h, b, s, id, unplaced);
  }

  lemma TriedTables(h: Hashes, b: Book, s: Spot, id: Id, unplaced: set<Id>)
    requires NewTableOk(h, b) && TriedTableOk(h, b) && RefsOk(b, unplaced) && s !in b.vvTried && id in b.mapInfo && id in unplaced
    requires s == TriedSpot(h, b.mapInfo[id].addr) && b.mapInfo[id].lastSuccess > 0
    ensures var b' := Tried(h, b, s, id); NewTableOk(h, b') && TriedTableOk(h, b') && RefsOk(b', unplaced - {id})
  {
    assert RefAt(b, unplaced, id);
    var b' := Tried(h, b, s, id);
    NowhereNew(b, id);
    forall t | t in b'.vvNew ensures NewEntryOk(h, b'.mapInfo, t, b'.vvNew[t]) {
      assert NewEntryOk(h, b.mapInfo, t, b.vvNew[t]);
    }
    forall t | t in b'.vvTried ensures TriedEntryOk(h, b'.mapInfo, t, b'.vvTried[t]) {
      if t != s { assert TriedEntryOk(h, b.mapInfo, t, b.vvTried[t]); }
    }
    forall j | j in b'.mapInfo && b'.mapInfo[j].fInTried ensures IsTried(h, b'.vvTried, j, b'.mapInfo[j]) {
      if j != id { assert IsTried(h, b.vvTried, j, b.mapInfo[j]); }
    }
    forall j | j in b'.mapInfo ensures RefAt(b', unplaced - {id}, j) {
      assert RefAt(b, unplaced, j);
    }
  }
}
