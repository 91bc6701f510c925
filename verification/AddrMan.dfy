/**
 The address manager (AddrManImpl, src/addrman.cpp): operations that change the tables in place.
 */
module AddrMans {
  import opened Numbers
  import opened Options
  import opened AddrBooks
  import opened AddrChecks

  const HOUR: int := 3600
  const DAY: int := 86400
  const HORIZON: int := 30 * DAY
  const RETRIES: int := 3
  const MAX_FAILURES: int := 10
  const MIN_FAIL: int := 7 * DAY
  const REPLACEMENT: int := 4 * HOUR
  const SET_TRIED_COLLISION_SIZE: nat := 10
  const TEST_WINDOW: int := 40 * 60

  /** Whether the statistics are bad enough for the entry to be dropped. */
  predicate IsTerrible(info: AddrInfo, now: int) {
    if now - info.lastTry <= 60 then false
    else
      || info.nTime > now + 600
      || now - info.nTime > HORIZON
      || (info.lastSuccess == 0 && info.nAttempts >= RETRIES)
      || (now - info.lastSuccess > MIN_FAIL && info.nAttempts >= MAX_FAILURES)
  }

  /** An announced address. */
  datatype Announcement = Announcement(addr: Service, nTime: int, nServices: set<nat>)

  class AddrMan {
    /** The keyed hashes, and what is known of addresses. */
    const h: Hashes
    var nIdCount: int
    var mapInfo: map<Id, AddrInfo>
    var mapAddr: map<Service, Id>
    var vRandom: seq<Id>
    var nTried: int
    var vvTried: map<Spot, Id>
    var nNew: int
    var vvNew: map<Spot, Id>
    var networkCounts: map<Network, Count>
    var triedCollisions: set<Id>
    var lastGood: int

    function Value(): Book
      reads this
    {
      Book(nIdCount, mapInfo, mapAddr, vRandom, nTried, vvTried, nNew, vvNew, networkCounts, triedCollisions)
    }

    ghost predicate Valid()
      reads this
    {
      Consistent(h, Value())
    }

    constructor (hashes: Hashes)
      ensures Valid() && h == hashes && Value() == EmptyBook
    {
      h := hashes;
      nIdCount, mapInfo, mapAddr, vRandom := 0, map[], map[], [];
      nTried, vvTried, nNew, vvNew := 0, map[], 0, map[];
      networkCounts, triedCollisions, lastGood := map[], {}, 1;
      new;
      EmptyConsistent(hashes);
    }

    method Find(addr: Service) returns (id: Option<Id>)
      requires Indexed(Value())
      ensures id == if addr in mapAddr then Some(mapAddr[addr]) else None
      ensures id.Some? ==> id.value in mapInfo && mapInfo[id.value].addr == addr
      ensures forall i :: i in mapInfo && mapInfo[i].addr == addr ==> id == Some(i)
    {
      assert forall i :: i in mapInfo ==> EntryIndexed(Value(), i, mapInfo[i]);
      if addr !in mapAddr {
        return None;
      }
      assert AddrIndexed(mapInfo, addr, mapAddr[addr]);
      if mapAddr[addr] in mapInfo {
        return Some(mapAddr[addr]);
      }
      return None;
    }

    method Create(a: Announcement, source: Source) returns (id: Id)
      modifies this
      ensures lastGood == old(lastGood)
      ensures id == old(nIdCount) && Value() == Created(h, old(Value()), a.addr, a.nTime, a.nServices, source)
    {
      id := nIdCount;
      nIdCount := nIdCount + 1;
      mapInfo := mapInfo[id := AddrInfo(a.addr, source, a.nTime, a.nServices, 0, 0, 0, 0, 0, false, -1)];
      mapAddr := mapAddr[a.addr := id];
      mapInfo := mapInfo[id := mapInfo[id].(nRandomPos := |vRandom|)];
      vRandom := vRandom + [id];
      nNew := nNew + 1;
      networkCounts := Bumped(networkCounts, h.network(a.addr), 1, 0);
      assert mapInfo == old(mapInfo)[id := mapInfo[id]];
    }

    method SwapRandom(p1: int, p2: int)
      requires 0 <= p1 < |vRandom| && 0 <= p2 < |vRandom| && vRandom[p1] in mapInfo && vRandom[p2] in mapInfo
      modifies this`mapInfo, this`vRandom
      ensures Value() == SwappedRandom(old(Value()), p1, p2)
    {
      if p1 == p2 {
        return;
      }
      var id1, id2 := vRandom[p1], vRandom[p2];
      mapInfo := mapInfo[id1 := mapInfo[id1].(nRandomPos := p2)];
      mapInfo := mapInfo[id2 := mapInfo[id2].(nRandomPos := p1)];
      vRandom := vRandom[p1 := id2];
      vRandom := vRandom[p2 := id1];
    }

    /** Delete an entry. It must not be in tried, and have refcount 0. */
    method Delete(id: Id)
      requires CanDelete(Value(), id) && !mapInfo[id].fInTried && mapInfo[id].nRefCount == 0
      modifies this
      ensures lastGood == old(lastGood)
      ensures Value() == Deleted(h, old(Value()), id)
    {
      SwapRandom(mapInfo[id].nRandomPos, |vRandom| - 1);
      Remove(id);
    }

    /** Take out the entry that is last in vRandom. */
    method Remove(id: Id)
      requires id in mapInfo && |vRandom| > 0
      modifies this
      ensures lastGood == old(lastGood)
      ensures Value() == Removed(h, old(Value()), id)
    {
      var addr := mapInfo[id].addr;
      networkCounts := Bumped(networkCounts, h.network(addr), -1, 0);
      vRandom := vRandom[..|vRandom| - 1];
      mapAddr := mapAddr - {addr};
      mapInfo := mapInfo - {id};
      nNew := nNew - 1;
    }

    /** Clear a position in the new table. */
    method ClearNew(s: Spot, ghost unplaced: set<Id>, ghost uncounted: set<Id>)
      requires Inv(h, Value(), unplaced, uncounted) && (s in vvNew ==> vvNew[s] !in uncounted)
      modifies this
      ensures lastGood == old(lastGood)
      ensures Inv(h, Value(), unplaced, uncounted) && Cleared(old(Value()), s, Value())
    {
      ClearedReady(h, Value(), s, unplaced, uncounted);
      ClearedInv(h, Value(), s, unplaced, uncounted);
      if s in vvNew {
        InTheNewTable(h, Value(), s);
        ClearOccupied(s);
      }
    }

    method ClearOccupied(s: Spot)
      requires s in vvNew && vvNew[s] in mapInfo && mapInfo[vvNew[s]].nRefCount > 0 && !mapInfo[vvNew[s]].fInTried
      requires mapInfo[vvNew[s]].nRefCount == 1 ==> CanDelete(DroppedSpot(Value(), s, vvNew[s]), vvNew[s])
      modifies this
      ensures lastGood == old(lastGood)
      ensures Value() == ClearedNew(h, old(Value()), s)
    {
      var id := vvNew[s];
      assert mapInfo[id].nRefCount > 0;
      mapInfo := mapInfo[id := mapInfo[id].(nRefCount := mapInfo[id].nRefCount - 1)];
      vvNew := vvNew - {s};
      if mapInfo[id].nRefCount == 0 {
        Delete(id);
      }
    }

    /** Remove the entry from all new buckets. */
    method LeaveNew(id: Id)
      requires Inv(h, Value(), {}, {}) && id in mapInfo && !mapInfo[id].fInTried
      modifies this`mapInfo, this`vvNew
      ensures Inv(h, Value(), {id}, {}) && Leaving(old(Value()), Value(), id) && mapInfo[id].nRefCount == 0
      ensures vvNew == Without(old(vvNew), id)
    {
      ghost var b := Value();
      LeavingStart(b, id);
      var addr := mapInfo[id].addr;
      var start := GetNewBucket(h, addr, mapInfo[id].source);
      var n := 0;
      while n < NEW_BUCKET_COUNT && mapInfo[id].nRefCount != 0
        invariant n <= NEW_BUCKET_COUNT && Leaving(b, Value(), id)
        invariant Inv(h, Value(), Mark({}, id, mapInfo[id].nRefCount == 0), {})
        invariant NotInFirst(h, vvNew, addr, id, start, n)
      {
        assert Mark({}, id, false) == {};
        BucketLeft(h, b, Value(), id, start, n);
        LeaveBucket(id, NewSpot(h, addr, Nth(start, n)));
        n := n + 1;
      }
      if mapInfo[id].nRefCount != 0 {
        AllBucketsVisited(h, Value(), id, start);
      }
      ThinnedAll(b, Value(), id);
    }

    /** Take the entry out of this position if it is there. */
    method LeaveBucket(id: Id, s: Spot)
      requires id in mapInfo
      modifies this`mapInfo, this`vvNew
      ensures Value() == if s in old(vvNew) && old(vvNew)[s] == id then DroppedSpot(old(Value()), s, id) else old(Value())
    {
      if s in vvNew && vvNew[s] == id {
        vvNew := vvNew - {s};
        mapInfo := mapInfo[id := mapInfo[id].(nRefCount := mapInfo[id].nRefCount - 1)];
      }
    }

    /** Take the entry at tried position s out of the tried set. */
    method EvictFromTried(s: Spot, id: Id)
      requires id in mapInfo
      modifies this
      ensures lastGood == old(lastGood)
      ensures Value() == Evicted(h, old(Value()), s, id)
    {
      mapInfo := mapInfo[id := mapInfo[id].(fInTried := false)];
      vvTried := vvTried - {s};
      nTried := nTried - 1;
      networkCounts := Bumped(networkCounts, h.network(mapInfo[id].addr), 0, -1);
    }

    /** Enter an evicted entry into the new set again. */
    method ReenterNew(s: Spot, id: Id)
      requires id in mapInfo && mapInfo[id].nRefCount == 0
      modifies this
      ensures lastGood == old(lastGood)
      ensures Value() == RecountedNew(h, AddedSpot(old(Value()), s, id), id, 1)
    {
      mapInfo := mapInfo[id := mapInfo[id].(nRefCount := 1)];
      vvNew := vvNew[s := id];
      nNew := nNew + 1;
      networkCounts := Bumped(networkCounts, h.network(mapInfo[id].addr), 1, 0);
    }

    method EnterTried(s: Spot, id: Id)
      requires id in mapInfo
      modifies this
      ensures lastGood == old(lastGood)
      ensures Value() == Tried(h, old(Value()), s, id)
    {
      vvTried := vvTried[s := id];
      nTried := nTried + 1;
      mapInfo := mapInfo[id := mapInfo[id].(fInTried := true)];
      networkCounts := Bumped(networkCounts, h.network(mapInfo[id].addr), 0, 1);
    }

    /** Move the entry that occupies tried position s back to the new table, deleting whatever is there. */
    method MakeSpace(s: Spot, ghost id: Id)
      requires Inv(h, Value(), {id}, {id}) && id in mapInfo && s in vvTried
      modifies this
      ensures lastGood == old(lastGood)
      ensures Inv(h, Value(), {id}, {id}) && SpaceMade(h, old(Value()), Value(), s, id)
    {
      ghost var b := Value();
      var idEvict := vvTried[s];
      EvictedFrom(h, b, s, id);
      EvictFromTried(s, idEvict);
      ghost var b1 := Value();
      var spot := NewSpot(h, mapInfo[idEvict].addr, GetNewBucket(h, mapInfo[idEvict].addr, mapInfo[idEvict].source));
      NotInNew(h, b1, id, idEvict);
      ClearNew(spot, {id} + {idEvict}, {id} + {idEvict});
      assert spot !in vvNew;
      ghost var b2 := Value();
      EvictedSurvives(h, b, b1, b2, s, spot, id, idEvict);
      Reentered(h, b2, spot, idEvict, id);
      ReenterNew(spot, idEvict);
    }

    /** Move an entry from the new table to the tried table. */
    method MakeTried(id: Id)
      requires Valid() && id in mapInfo && !mapInfo[id].fInTried && mapInfo[id].lastSuccess > 0
      modifies this
      ensures lastGood == old(lastGood)
      ensures Valid() && Keeps(old(Value()), Value()) && triedCollisions == old(triedCollisions)
      ensures id in mapInfo && mapInfo[id].fInTried && mapInfo[id].addr == old(mapInfo)[id].addr
      ensures vvTried == old(vvTried)[TriedSpot(h, old(mapInfo)[id].addr) := id]
      ensures BackInNew(old(Value()), TriedSpot(h, old(mapInfo)[id].addr), Value())
      ensures vvNew == NewAfterTried(h, old(Value()), id) && StatsKept(old(Value()), Value(), {})
    {
      ghost var b := Value();
      var addr := mapInfo[id].addr;
      Detach(id);
      ghost var b1 := Value();
      var s := TriedSpot(h, addr);
      if s in vvTried {
        MakeSpace(s, id);
      } else {
        NoSpaceNeeded(h, b1, s, id);
      }
      assert s !in vvTried;
      NotTriedYet(h, b, s, id);
      TriedCollisions(h, b, b1, Value(), s, id);
      TriedInv(h, Value(), s, id, {id}, {id});
      assert {id} - {id} == {};
      EnterTried(s, id);
    }

    /** Remove the entry from the new table and stop counting it. */
    method Detach(id: Id)
      requires Inv(h, Value(), {}, {}) && id in mapInfo && !mapInfo[id].fInTried
      modifies this
      ensures lastGood == old(lastGood)
      ensures Inv(h, Value(), {id}, {id}) && Detached(old(Value()), Value(), id)
    {
      LeaveNew(id);
      StopCounting(id, {id});
    }

    method StopCounting(id: Id, ghost unplaced: set<Id>)
      requires Inv(h, Value(), unplaced, {}) && id in mapInfo && !mapInfo[id].fInTried
      modifies this`nNew, this`networkCounts
      ensures Inv(h, Value(), unplaced, {id})
    {
      ghost var after := NoLongerCounted(h, Value(), id, unplaced);
      nNew := nNew - 1;
      networkCounts := Bumped(networkCounts, h.network(mapInfo[id].addr), -1, 0);
      assert Value() == after;
    }

    /** Change what an entry says about times, services and attempts. */
    method Touch(id: Id, info: AddrInfo, ghost unplaced: set<Id>)
      requires Inv(h, Value(), unplaced, {}) && CollisionsOk(h, Value(), {}) && id in mapInfo && Touchable(mapInfo[id], info)
      modifies this`mapInfo
      ensures mapInfo == old(mapInfo)[id := info] && Inv(h, Value(), unplaced, {}) && CollisionsOk(h, Value(), {})
      ensures Older(old(Value()), Value()) && StatsKept(old(Value()), Value(), {id})
    {
      TouchedInv(h, Value(), id, info, unplaced);
      mapInfo := mapInfo[id := info];
    }

    /** Put a new entry into its position unless something better is there. */
    method PlaceNew(id: Id, s: Spot, now: int, ghost unplaced: set<Id>) returns (inserted: bool)
      requires Inv(h, Value(), unplaced, {}) && CollisionsOk(h, Value(), {}) && id in mapInfo && !mapInfo[id].fInTried
      requires mapInfo[id].nRefCount < NEW_BUCKETS_PER_ADDRESS && unplaced == (if mapInfo[id].nRefCount == 0 then {id} else {})
      requires s.bucket < NEW_BUCKET_COUNT && s == NewSpot(h, mapInfo[id].addr, s.bucket)
      modifies this
      ensures lastGood == old(lastGood)
      ensures Valid() && Older(old(Value()), Value())
      ensures inserted <==> Yields(old(Value()), s, id, old(mapInfo)[id].nRefCount, now)
      ensures if inserted then Inserted(old(Value()), Value(), s, id) else GivenUp(old(Value()), Value(), id)
    {
      ghost var b := Value();
      inserted := s !in vvNew;
      if s in vvNew && vvNew[s] == id {
        PlacedAlready(h, b, s, id, unplaced);
        StatsSelf(b);
        return;
      }
      if !inserted {
        InTheNewTable(h, b, s);
        var existing := mapInfo[vvNew[s]];
        if IsTerrible(existing, now) || (existing.nRefCount > 1 && mapInfo[id].nRefCount == 0) {
          inserted := true;
        }
      }
      if inserted {
        InsertNew(id, s, unplaced);
      } else if mapInfo[id].nRefCount == 0 {
        DropUnplaced(id);
      } else {
        StatsSelf(b);
      }
    }

    /** Put the entry into position s, clearing it first. */
    method InsertNew(id: Id, s: Spot, ghost unplaced: set<Id>)
      requires Inv(h, Value(), unplaced, {}) && CollisionsOk(h, Value(), {}) && id in mapInfo && !mapInfo[id].fInTried
      requires mapInfo[id].nRefCount < NEW_BUCKETS_PER_ADDRESS && unplaced <= {id} && (s in vvNew ==> vvNew[s] != id)
      requires s.bucket < NEW_BUCKET_COUNT && s == NewSpot(h, mapInfo[id].addr, s.bucket)
      modifies this
      ensures lastGood == old(lastGood)
      ensures Valid() && Older(old(Value()), Value()) && Inserted(old(Value()), Value(), s, id)
    {
      ghost var b := Value();
      ClearNew(s, unplaced, {});
      ghost var after := InsertedInv(h, b, s, Value(), id, unplaced);
      AddSpot(id, s);
      assert Value() == after;
    }

    method AddSpot(id: Id, s: Spot)
      requires id in mapInfo
      modifies this`mapInfo, this`vvNew
      ensures Value() == AddedSpot(old(Value()), s, id)
    {
      mapInfo := mapInfo[id := mapInfo[id].(nRefCount := mapInfo[id].nRefCount + 1)];
      vvNew := vvNew[s := id];
    }

    /** Give up on an entry that found no place. */
    method DropUnplaced(id: Id)
      requires Inv(h, Value(), {id}, {}) && CollisionsOk(h, Value(), {}) && id in mapInfo && !mapInfo[id].fInTried && mapInfo[id].nRefCount == 0
      modifies this
      ensures lastGood == old(lastGood)
      ensures Valid() && Older(old(Value()), Value()) && GivenUp(old(Value()), Value(), id)
    {
      ghost var after := DroppedUnplaced(h, Value(), id);
      Delete(id);
      assert Value() == after;
    }

    /** Try to add an address to the new table. The clock and the dice are inputs. */
    method AddSingle(a: Announcement, source: Source, selfAnnounced: bool, timePenalty: int, now: int, lucky: bool) returns (added: bool)
      requires Valid()
      modifies this
      ensures lastGood == old(lastGood)
      ensures Valid() && Older(old(Value()), Value())
      ensures added <==> Adds(h, old(Value()), a, source, if selfAnnounced then 0 else timePenalty, now, lucky)
      ensures vvTried == old(vvTried)
      ensures vvNew == if added then old(vvNew)[SpotFor(h, a, source) := IdFor(old(Value()), a.addr)] else old(vvNew)
      ensures added ==> Found(Value(), a.addr, IdFor(old(Value()), a.addr))
      ensures !added && a.addr !in old(mapAddr) ==> a.addr !in mapAddr
      ensures h.routable(a.addr) && a.addr in old(mapAddr) ==>
        KnownAfter(old(Value()), Value(), old(mapAddr)[a.addr], a, if selfAnnounced then 0 else timePenalty, now, added)
      ensures added && a.addr !in old(mapAddr) ==>
        IdFor(old(Value()), a.addr) in mapInfo && MadeFor(a, source, if selfAnnounced then 0 else timePenalty, mapInfo[IdFor(old(Value()), a.addr)])
      ensures StatsKept(old(Value()), Value(), {IdFor(old(Value()), a.addr)})
      ensures !h.routable(a.addr) ==> Value() == old(Value())
    {
      StatsSelf(Value());
      if !h.routable(a.addr) {
        return false;
      }
      var found := Find(a.addr);
      var penalty := if selfAnnounced then 0 else timePenalty;
      if found.Some? {
        added := AddKnown(found.value, a, source, penalty, now, lucky);
      } else {
        added := AddUnknown(a, source, penalty, now);
      }
      if added {
        FoundByAddr(Value(), IdFor(old(Value()), a.addr));
      }
    }

    /** An address that has an entry may get another position for it. */
    method AddKnown(id: Id, a: Announcement, source: Source, penalty: int, now: int, lucky: bool) returns (added: bool)
      requires Valid() && id in mapInfo && mapInfo[id].addr == a.addr
      modifies this
      ensures lastGood == old(lastGood)
      ensures Valid() && Older(old(Value()), Value())
      ensures added <==> AddsKnown(h, old(Value()), id, a, source, penalty, now, lucky)
      ensures vvTried == old(vvTried)
      ensures vvNew == if added then old(vvNew)[SpotFor(h, a, source) := id] else old(vvNew)
      ensures id in mapInfo && mapInfo[id].addr == a.addr && KnownAfter(old(Value()), Value(), id, a, penalty, now, added)
      ensures StatsKept(old(Value()), Value(), {id})
    {
      ghost var b := Value();
      var proceed := Refresh(id, a, penalty, now, lucky);
      if !proceed {
        return false;
      }
      ghost var b1 := Value();
      YieldsSame(b, b1, SpotFor(h, a, source), id, mapInfo[id].nRefCount, now);
      added := PlaceNew(id, SpotFor(h, a, source), now, {});
      OlderTrans(b, b1, Value());
      StatsTrans(b, b1, Value(), {id});
    }

    /** An address without an entry gets one, which stays if it finds a position. */
    method AddUnknown(a: Announcement, source: Source, penalty: int, now: int) returns (added: bool)
      requires Valid() && a.addr !in mapAddr
      modifies this
      ensures lastGood == old(lastGood)
      ensures Valid() && Older(old(Value()), Value())
      ensures added <==> Yields(old(Value()), SpotFor(h, a, source), old(nIdCount), 0, now)
      ensures vvTried == old(vvTried)
      ensures vvNew == if added then old(vvNew)[SpotFor(h, a, source) := old(nIdCount)] else old(vvNew)
      ensures if added then old(nIdCount) in mapInfo && mapInfo[old(nIdCount)].addr == a.addr else a.addr !in mapAddr
      ensures added ==> MadeFor(a, source, penalty, mapInfo[old(nIdCount)])
      ensures StatsKept(old(Value()), Value(), {})
    {
      ghost var b := Value();
      var id := CreateFor(a, source, penalty);
      ghost var b1 := Value();
      YieldsSame(b, b1, SpotFor(h, a, source), id, 0, now);
      added := PlaceNew(id, SpotFor(h, a, source), now, {id});
      OlderTrans(b, b1, Value());
      StatsTrans(b, b1, Value(), {});
    }

    /** Update a known entry; the result says whether to look for another place for it. */
    method Refresh(id: Id, a: Announcement, penalty: int, now: int, lucky: bool) returns (proceed: bool)
      requires Valid() && id in mapInfo && mapInfo[id].addr == a.addr
      modifies this`mapInfo
      ensures Valid() && Older(old(Value()), Value()) && StatsKept(old(Value()), Value(), {id})
      ensures mapInfo == old(mapInfo)[id := Refreshed(old(mapInfo)[id], a, penalty, now)]
      ensures proceed <==> SeeksPlace(mapInfo[id], a, lucky)
      ensures proceed ==> !mapInfo[id].fInTried && 0 < mapInfo[id].nRefCount < NEW_BUCKETS_PER_ADDRESS
    {
      var info := mapInfo[id];
      var interval := if now - a.nTime < DAY then HOUR else DAY;
      if info.nTime < a.nTime - interval - penalty {
        info := info.(nTime := if 0 > a.nTime - penalty then 0 else a.nTime - penalty);
      }
      info := info.(nServices := info.nServices + a.nServices);
      RefreshTouches(h, Value(), id, a, penalty, now);
      assert info == Refreshed(mapInfo[id], a, penalty, now);
      Touch(id, info, {});
      if a.nTime <= info.nTime || info.fInTried || info.nRefCount == NEW_BUCKETS_PER_ADDRESS {
        return false;
      }
      // the more references, the less likely another one
      return info.nRefCount == 0 || lucky;
    }

    /** A new entry, not in any table yet. */
    method CreateFor(a: Announcement, source: Source, penalty: int) returns (id: Id)
      requires Valid() && a.addr !in mapAddr
      modifies this
      ensures lastGood == old(lastGood)
      ensures id == old(nIdCount) && id !in old(mapInfo)
      ensures Inv(h, Value(), {id}, {}) && CollisionsOk(h, Value(), {}) && Older(old(Value()), Value())
      ensures id in mapInfo && mapInfo == old(mapInfo)[id := mapInfo[id]] && vvNew == old(vvNew) && vvTried == old(vvTried)
      ensures mapInfo[id].addr == a.addr && !mapInfo[id].fInTried && mapInfo[id].nRefCount == 0
      ensures MadeFor(a, source, penalty, mapInfo[id].(nRefCount := 1)) && StatsKept(old(Value()), Value(), {})
    {
      ghost var b := Value();
      var time := if 0 > a.nTime - penalty then 0 else a.nTime - penalty;
      ghost var after := CreatedForInv(h, b, a, source, time);
      id := Create(a, source);
      mapInfo := mapInfo[id := mapInfo[id].(nTime := time)];
      assert Value() == after;
    }

    /** A successful connection: move the address to the tried table, or record a collision. */
    method Good(addr: Service, testBeforeEvict: bool, time: int) returns (moved: bool)
      requires Valid() && time > 0
      modifies this
      ensures Valid() && Keeps(old(Value()), Value())
      ensures moved ==> addr in mapAddr && mapAddr[addr] in mapInfo && mapInfo[mapAddr[addr]].fInTried
      ensures addr in old(mapAddr) ==> old(mapAddr)[addr] in old(mapInfo)
      ensures moved <==>
        addr in old(mapAddr) && !old(mapInfo)[old(mapAddr)[addr]].fInTried && !(testBeforeEvict && TriedSpot(h, addr) in old(vvTried))
      ensures vvTried == if moved then old(vvTried)[TriedSpot(h, addr) := old(mapAddr)[addr]] else old(vvTried)
      ensures triedCollisions ==
        if addr in old(mapAddr) && !old(mapInfo)[old(mapAddr)[addr]].fInTried && Postpones(h, old(Value()), addr, testBeforeEvict)
        then old(triedCollisions) + {old(mapAddr)[addr]} else old(triedCollisions)
      ensures lastGood == time && (addr in old(mapAddr) ==> SucceededWith(old(Value()), Value(), old(mapAddr)[addr], time))
      ensures StatsKept(old(Value()), Value(), if addr in old(mapAddr) then {old(mapAddr)[addr]} else {})
      ensures vvNew == if moved && old(mapAddr)[addr] in old(mapInfo) then NewAfterTried(h, old(Value()), old(mapAddr)[addr]) else old(vvNew)
    {
      StatsSelf(Value());
      lastGood := time;
      var found := Find(addr);
      if found.None? {
        return false;
      }
      moved := GoodKnown(addr, found.value, testBeforeEvict, time);
      FoundByAddr(Value(), found.value);
    }

    method GoodKnown(addr: Service, id: Id, testBeforeEvict: bool, time: int) returns (moved: bool)
      requires Valid() && time > 0 && id in mapInfo && mapInfo[id].addr == addr
      modifies this
      ensures lastGood == old(lastGood)
      ensures Valid() && Keeps(old(Value()), Value())
      ensures triedCollisions ==
        if !old(mapInfo)[id].fInTried && Postpones(h, old(Value()), addr, testBeforeEvict) then old(triedCollisions) + {id} else old(triedCollisions)
      ensures id in mapInfo && mapInfo[id].addr == addr && (moved ==> mapInfo[id].fInTried)
      ensures moved <==> !old(mapInfo)[id].fInTried && !(testBeforeEvict && TriedSpot(h, addr) in old(vvTried))
      ensures vvTried == if moved then old(vvTried)[TriedSpot(h, addr) := id] else old(vvTried)
      ensures vvNew == if moved then NewAfterTried(h, old(Value()), id) else old(vvNew)
      ensures SucceededWith(old(Value()), Value(), id, time) && StatsKept(old(Value()), Value(), {id})
    {
      ghost var b := Value();
      NoteSuccess(id, time);
      if mapInfo[id].fInTried {
        return false;
      }
      // if it is not in new, something bad happened
      assert mapInfo[id].nRefCount > 0;
      ghost var b1 := Value();
      moved := MoveOrRecord(addr, id, testBeforeEvict);
      KeepsTrans(b, b1, Value());
      StatsTrans(b, b1, Value(), {id});
      SuccessThenTried(h, b, b1, Value(), id, time);
    }

    method NoteSuccess(id: Id, time: int)
      requires Valid() && time > 0 && id in mapInfo
      modifies this`mapInfo
      ensures Valid() && Keeps(old(Value()), Value()) && StatsKept(old(Value()), Value(), {id})
      ensures mapInfo == old(mapInfo)[id := old(mapInfo)[id].(lastSuccess := time, lastTry := time, nAttempts := 0)]
      ensures mapInfo[id].fInTried || mapInfo[id].nRefCount > 0
    {
      SuccessTouches(h, Value(), id, time);
      var info := mapInfo[id].(lastSuccess := time, lastTry := time, nAttempts := 0);
      Touch(id, info, {});
      assert mapInfo[id] == info;
    }

    /** Move a new entry to the tried table, or record the collision. */
    method MoveOrRecord(addr: Service, id: Id, testBeforeEvict: bool) returns (moved: bool)
      requires Valid() && id in mapInfo && mapInfo[id].addr == addr && !mapInfo[id].fInTried && mapInfo[id].lastSuccess > 0
      modifies this
      ensures lastGood == old(lastGood)
      ensures Valid() && Keeps(old(Value()), Value())
      ensures triedCollisions == if Postpones(h, old(Value()), addr, testBeforeEvict) then old(triedCollisions) + {id} else old(triedCollisions)
      ensures id in mapInfo && mapInfo[id].addr == addr && (moved ==> mapInfo[id].fInTried)
      ensures moved <==> !(testBeforeEvict && TriedSpot(h, addr) in old(vvTried))
      ensures vvTried == if moved then old(vvTried)[TriedSpot(h, addr) := id] else old(vvTried)
      ensures vvNew == if moved then NewAfterTried(h, old(Value()), id) else old(vvNew)
      ensures StatsKept(old(Value()), Value(), {})
    {
      StatsSelf(Value());
      var collides := TriedSpot(h, addr) in vvTried;
      if testBeforeEvict && collides {
        Record(id);
      } else {
        MakeTried(id);
      }
      moved := !(testBeforeEvict && collides);
    }

    method Record(id: Id)
      requires Valid() && id in mapInfo && TriedSpot(h, mapInfo[id].addr) in vvTried
      modifies this
      ensures lastGood == old(lastGood)
      ensures mapInfo == old(mapInfo) && vvTried == old(vvTried) && vvNew == old(vvNew) && nIdCount == old(nIdCount)
      ensures Valid() && Keeps(old(Value()), Value())
      ensures triedCollisions == if |old(triedCollisions)| < SET_TRIED_COLLISION_SIZE then old(triedCollisions) + {id} else old(triedCollisions)
    {
      if |triedCollisions| < SET_TRIED_COLLISION_SIZE {
        RecordedInv(h, Value(), id);
        triedCollisions := triedCollisions + {id};
      }
    }

    /** A connection attempt. */
    method Attempt(addr: Service, countFailure: bool, time: int)
      requires Valid() && time >= 0
      modifies this
      ensures lastGood == old(lastGood)
      ensures Valid() && Keeps(old(Value()), Value()) && triedCollisions == old(triedCollisions)
      ensures addr in mapAddr ==> mapAddr[addr] in old(mapInfo)
      ensures Value() == old(Value()).(mapInfo := mapInfo)
      ensures mapInfo ==
        if addr in mapAddr then old(mapInfo)[mapAddr[addr] := Attempted(old(mapInfo)[mapAddr[addr]], countFailure, lastGood, time)]
        else old(mapInfo)
    {
      var found := Find(addr);
      if found.None? {
        return;
      }
      AttemptKnown(found.value, countFailure, time);
    }

    method AttemptKnown(id: Id, countFailure: bool, time: int)
      requires Valid() && time >= 0 && id in mapInfo
      modifies this`mapInfo
      ensures Valid() && Older(old(Value()), Value())
      ensures mapInfo == old(mapInfo)[id := Attempted(old(mapInfo)[id], countFailure, lastGood, time)]
    {
      var info := mapInfo[id];
      AttemptTouches(h, Value(), id, countFailure, time);
      info := info.(lastTry := time);
      if countFailure && info.lastCountAttempt < lastGood {
        info := info.(lastCountAttempt := time, nAttempts := info.nAttempts + 1);
      }
      assert info == Attempted(mapInfo[id], countFailure, lastGood, time);
      Touch(id, info, {});
    }

    /** Handle one recorded collision; the result says whether it is settled. */
    method ResolveOne(idNew: Id, now: int) returns (settled: bool)
      requires Valid() && now > 0 && idNew in triedCollisions
      modifies this
      ensures Valid() && Older(old(Value()), Value())
      ensures settled <==> Settled(h, old(Value()), idNew, now)
      ensures vvTried == TriedAfter(h, old(Value()), idNew, now) && vvNew == NewAfter(h, old(Value()), idNew, now)
      ensures StatsKept(old(Value()), Value(), {idNew})
    {
      StatsSelf(Value());
      if idNew !in mapInfo {
        return true;
      }
      var addr := mapInfo[idNew].addr;
      var s := TriedSpot(h, addr);
      if !h.valid(addr) {
        return true;
      }
      // a recorded collision always points at an occupied position
      assert s in vvTried;
      assert TriedEntryOk(h, mapInfo, s, vvTried[s]);
      var infoOld := mapInfo[vvTried[s]];
      if now - infoOld.lastSuccess < REPLACEMENT {
        return true;
      } else if now - infoOld.lastTry < REPLACEMENT {
        if now - infoOld.lastTry > 60 {
          ReplaceTried(idNew, now);
          return true;
        }
      } else if now - mapInfo[idNew].lastSuccess > TEST_WINDOW {
        ReplaceTried(idNew, now);
        return true;
      }
      return false;
    }

    /** Good_ without testing: the entry takes its tried position unless it is tried already. */
    method ReplaceTried(id: Id, now: int)
      requires Valid() && now > 0 && id in mapInfo
      modifies this
      ensures Valid() && Older(old(Value()), Value())
      ensures vvTried == if old(mapInfo)[id].fInTried then old(vvTried) else old(vvTried)[TriedSpot(h, old(mapInfo)[id].addr) := id]
      ensures vvNew == if old(mapInfo)[id].fInTried then old(vvNew) else NewAfterTried(h, old(Value()), id)
      ensures SucceededWith(old(Value()), Value(), id, now) && StatsKept(old(Value()), Value(), {id})
    {
      FoundByAddr(Value(), id);
      var _ := Good(mapInfo[id].addr, false, now);
    }

    /** See whether the recorded collisions can be settled, in ascending order of their ids. */
    method ResolveCollisions(now: int) returns (ghost trace: seq<Book>)
      requires Valid() && now > 0
      modifies this
      ensures Valid() && Keeps(old(Value()), Value()) && triedCollisions <= old(triedCollisions)
      ensures |trace| > 0 && trace[0] == old(Value()) && trace[|trace| - 1] == Value()
      ensures old(nIdCount) == |trace| - 1 && ResolvedInTurn(h, trace, now)
    {
      ghost var start := Value();
      trace := [start];
      for id := 0 to nIdCount
        invariant Valid() && Keeps(start, Value()) && triedCollisions <= start.collisions
        invariant |trace| == id + 1 && trace[0] == start && trace[id] == Value() && ResolvedInTurn(h, trace, now)
      {
        ghost var b := Value();
        if id in triedCollisions {
          ResolveAndErase(id, now);
          KeepsTrans(start, b, Value());
        }
        TurnTaken(h, trace, b, Value(), now);
        trace := trace + [Value()];
      }
    }

    method ResolveAndErase(id: Id, now: int)
      requires Valid() && now > 0 && id in triedCollisions
      modifies this
      ensures Valid() && Keeps(old(Value()), Value()) && Resolved(h, old(Value()), id, now, Value())
    {
      ghost var b := Value();
      var settled := ResolveOne(id, now);
      ghost var b1 := Value();
      if settled {
        Forget(id);
      }
      SameEntries(b, b1, Value(), {id});
    }

    method Forget(id: Id)
      requires Valid()
      modifies this`triedCollisions
      ensures Valid() && triedCollisions == old(triedCollisions) - {id}
    {
      ForgottenInv(h, Value(), id);
      triedCollisions := triedCollisions - {id};
    }

    /** The address that a recorded collision would evict; idNew is drawn at random from the recorded ones. */
    method SelectTriedCollision(idNew: Id) returns (r: Option<(Service, int)>)
      requires Valid() && (triedCollisions != {} ==> idNew in triedCollisions)
      modifies this
      ensures lastGood == old(lastGood)
      ensures Valid() && Value() == old(Value()).(collisions := if idNew in old(mapInfo) then old(triedCollisions) else old(triedCollisions) - {idNew})
      ensures r.None? <==> old(triedCollisions) == {} || idNew !in mapInfo
      ensures r.Some? ==>
        var s := TriedSpot(h, mapInfo[idNew].addr);
        s in vvTried && vvTried[s] in mapInfo && r.value == (mapInfo[vvTried[s]].addr, mapInfo[vvTried[s]].lastTry)
    {
      if triedCollisions == {} {
        return None;
      }
      if idNew !in mapInfo {
        Forget(idNew);
        return None;
      }
      var s := TriedSpot(h, mapInfo[idNew].addr);
      // never looks up -1
      assert s in vvTried;
      assert TriedEntryOk(h, mapInfo, s, vvTried[s]);
      var infoOld := mapInfo[vvTried[s]];
      return Some((infoOld.addr, infoOld.lastTry));
    }
  }

  /** The entry records a success at this time. */
  ghost predicate SucceededWith(b: Book, b': Book, id: Id, time: int) {
    && id in b.mapInfo && id in b'.mapInfo
    && SameStats(b.mapInfo[id].(lastSuccess := time, lastTry := time, nAttempts := 0), b'.mapInfo[id])
  }

  /** Taking up its tried position leaves what a success has recorded, and goes by the tables as they were. */
  lemma SuccessThenTried(h: Hashes, b: Book, b1: Book, b2: Book, id: Id, time: int)
    requires Indexed(b) && id in b.mapInfo && StatsKept(b1, b2, {}) && id in b2.mapInfo
    requires b1 == b.(mapInfo := b.mapInfo[id := b.mapInfo[id].(lastSuccess := time, lastTry := time, nAttempts := 0)])
    ensures SucceededWith(b, b2, id, time) && NewAfterTried(h, b1, id) == NewAfterTried(h, b, id)
  {
    assert EntryIndexed(b, id, b.mapInfo[id]) && StatsAt(b1, b2, id);
  }

  /** The tried position is occupied, must not be emptied untested, and the collision can still be recorded. */
  predicate Postpones(h: Hashes, b: Book, addr: Service, testBeforeEvict: bool) {
    testBeforeEvict && TriedSpot(h, addr) in b.vvTried && |b.collisions| < SET_TRIED_COLLISION_SIZE
  }

  // ---------------------------------------------------------------- resolving collisions

  /** The entry in the tried position of a recorded collision has had its time. */
  predicate Expired(infoOld: AddrInfo, infoNew: AddrInfo, now: int) {
    if now - infoOld.lastTry < REPLACEMENT then now - infoOld.lastTry > 60 else now - infoNew.lastSuccess > TEST_WINDOW
  }

  /** What is in the tried position of id, as of b. */
  function Opponent(h: Hashes, b: Book, id: Id): Option<AddrInfo>
    requires id in b.mapInfo
  {
    var s := TriedSpot(h, b.mapInfo[id].addr);
    if s in b.vvTried && b.vvTried[s] in b.mapInfo then Some(b.mapInfo[b.vvTried[s]]) else None
  }

  /** The collision ends: id is gone or invalid, its opponent has succeeded lately, or has had its time. */
  predicate Settled(h: Hashes, b: Book, id: Id, now: int) {
    || id !in b.mapInfo || !h.valid(b.mapInfo[id].addr) || Opponent(h, b, id).None?
    || now - Opponent(h, b, id).value.lastSuccess < REPLACEMENT || Expired(Opponent(h, b, id).value, b.mapInfo[id], now)
  }

  /** Only an opponent that has had its time is replaced. */
  predicate Replaced(h: Hashes, b: Book, id: Id, now: int) {
    && id in b.mapInfo && h.valid(b.mapInfo[id].addr) && Opponent(h, b, id).Some? && !b.mapInfo[id].fInTried
    && now - Opponent(h, b, id).value.lastSuccess >= REPLACEMENT && Expired(Opponent(h, b, id).value, b.mapInfo[id], now)
  }

  function TriedAfter(h: Hashes, b: Book, id: Id, now: int): map<Spot, Id> {
    if Replaced(h, b, id, now) then b.vvTried[TriedSpot(h, b.mapInfo[id].addr) := id] else b.vvTried
  }

  function NewAfter(h: Hashes, b: Book, id: Id, now: int): map<Spot, Id> {
    if Replaced(h, b, id, now) then NewAfterTried(h, b, id) else b.vvNew
  }

  /** What handling the recorded collision id does. */
  ghost predicate Resolved(h: Hashes, b: Book, id: Id, now: int, b': Book) {
    && b'.collisions == (if Settled(h, b, id, now) then b.collisions - {id} else b.collisions)
    && b'.vvTried == TriedAfter(h, b, id, now) && b'.vvNew == NewAfter(h, b, id, now) && StatsKept(b, b', {id})
  }

  ghost predicate Turn(h: Hashes, b: Book, id: Id, now: int, b': Book) {
    if id in b.collisions then Resolved(h, b, id, now, b') else b' == b
  }

  /** Each id in turn: a recorded collision is handled, anything else is passed over. */
  ghost predicate ResolvedInTurn(h: Hashes, trace: seq<Book>, now: int) {
    forall id {:trigger Turn(h, trace[id], id, now, trace[id + 1])} :: 0 <= id < |trace| - 1 ==> Turn(h, trace[id], id, now, trace[id + 1])
  }

  lemma TurnTaken(h: Hashes, trace: seq<Book>, b: Book, b': Book, now: int)
    requires trace != [] && trace[|trace| - 1] == b && ResolvedInTurn(h, trace, now) && Turn(h, b, |trace| - 1, now, b')
    ensures ResolvedInTurn(h, trace + [b'], now)
  {
    var t := trace + [b'];
    forall id | 0 <= id < |t| - 1 ensures Turn(h, t[id], id, now, t[id + 1]) {
      if id < |trace| - 1 { assert Turn(h, trace[id], id, now, trace[id + 1]); }
    }
  }

  lemma ForgottenInv(h: Hashes, b: Book, id: Id)
    requires Consistent(h, b)
    ensures Consistent(h, b.(collisions := b.collisions - {id}))
  {
    OtherCollisions(h, b, b.(collisions := b.collisions - {id}));
  }

  /** The address is found under this id. */
  ghost predicate Found(b: Book, addr: Service, id: Id) {
    addr in b.mapAddr && b.mapAddr[addr] == id && id in b.mapInfo
  }

  lemma RecordedInv(h: Hashes, b: Book, id: Id)
    requires Consistent(h, b) && id in b.mapInfo && TriedSpot(h, b.mapInfo[id].addr) in b.vvTried
    ensures Consistent(h, b.(collisions := b.collisions + {id}))
  {
    OtherCollisions(h, b, b.(collisions := b.collisions + {id}));
    RecordedCollisions(h, b, id);
  }

  lemma RecordedCollisions(h: Hashes, b: Book, id: Id)
    requires Indexed(b) && CollisionsOk(h, b, {}) && id in b.mapInfo && TriedSpot(h, b.mapInfo[id].addr) in b.vvTried
    ensures CollisionsOk(h, b.(collisions := b.collisions + {id}), {})
  {
    assert EntryIndexed(b, id, b.mapInfo[id]);
  }

  lemma OtherCollisions(h: Hashes, b: Book, b': Book)
    requires Inv(h, b, {}, {}) && b' == b.(collisions := b'.collisions)
    ensures Inv(h, b', {}, {})
  {
    CopyIndexed(b, b');
    CopyRefs(b, b', {});
    assert Tallied(h, b', {});
  }

  lemma FoundByAddr(b: Book, id: Id)
    requires Indexed(b) && id in b.mapInfo
    ensures Found(b, b.mapInfo[id].addr, id)
  {
    assert EntryIndexed(b, id, b.mapInfo[id]);
  }

  /** Times, services and attempts may change; the rest may not. */
  ghost predicate Touchable(x: AddrInfo, y: AddrInfo) {
    && SameKind(x, y) && y.nRandomPos == x.nRandomPos && y.lastTry >= 0 && y.lastSuccess >= 0 && (y.fInTried ==> y.lastSuccess > 0)
  }

  lemma TouchedInv(h: Hashes, b: Book, id: Id, info: AddrInfo, unplaced: set<Id>)
    requires Inv(h, b, unplaced, {}) && CollisionsOk(h, b, {}) && id in b.mapInfo && Touchable(b.mapInfo[id], info)
    ensures var b' := b.(mapInfo := b.mapInfo[id := info]);
      Inv(h, b', unplaced, {}) && CollisionsOk(h, b', {}) && Older(b, b') && StatsKept(b, b', {id})
  {
    var b' := b.(mapInfo := b.mapInfo[id := info]);
    FlippedIndexed(b, b', id);
    forall j | j !in {id} ensures StatsAt(b, b', j) {
    }
    assert SameShape(b.mapInfo, b'.mapInfo) by {
      forall j | j in b.mapInfo ensures b'.mapInfo[j].lastTry >= 0 && b'.mapInfo[j].lastSuccess >= 0 && (b.mapInfo[j].fInTried ==> b'.mapInfo[j].lastSuccess > 0) {
        assert RefAt(b, unplaced, j);
      }
    }
    ShapeInv(h, b, b', unplaced, {});
  }

  /** What the reference count of an entry says about its place. */
  lemma EntryRefs(h: Hashes, b: Book, id: Id, unplaced: set<Id>)
    requires RefsOk(b, unplaced) && id in b.mapInfo
    ensures !b.mapInfo[id].fInTried ==> (b.mapInfo[id].nRefCount == 0 <==> id in unplaced)
    ensures 0 <= b.mapInfo[id].nRefCount <= NEW_BUCKETS_PER_ADDRESS
    ensures b.mapInfo[id].lastTry >= 0 && b.mapInfo[id].lastSuccess >= 0 && (b.mapInfo[id].fInTried ==> b.mapInfo[id].lastSuccess > 0)
  {
    assert RefAt(b, unplaced, id);
  }

  lemma SameEntries(b: Book, b1: Book, b2: Book, touched: set<Id>)
    requires StatsKept(b, b1, touched) && b2 == b1.(collisions := b2.collisions)
    ensures StatsKept(b, b2, touched)
  {
    StatsSelf(b1);
    forall id | id !in touched ensures StatsAt(b, b2, id) {
      assert StatsAt(b, b1, id);
    }
  }

  lemma StatsSelf(b: Book)
    ensures StatsKept(b, b, {})
  {
    assert forall id {:trigger StatsAt(b, b, id)} :: StatsAt(b, b, id);
  }

  lemma PlacedAlready(h: Hashes, b: Book, s: Spot, id: Id, unplaced: set<Id>)
    requires Inv(h, b, unplaced, {}) && s in b.vvNew && b.vvNew[s] == id && unplaced <= {id}
    ensures unplaced == {}
  {
    DroppedInv(h, b, s, id, unplaced, {});
    assert id !in unplaced;
  }

  /** Recorded collisions stay good when addresses and tried positions stay. */
  lemma CollisionsKept(h: Hashes, b: Book, b': Book)
    requires CollisionsOk(h, b, {}) && Older(b, b')
    ensures CollisionsOk(h, b', {})
  {
  }

  lemma ClearedOlder(h: Hashes, b: Book, s: Spot, b1: Book, id: Id)
    requires CollisionsOk(h, b, {}) && Cleared(b, s, b1) && id in b1.mapInfo
    ensures var b' := AddedSpot(b1, s, id); Older(b, b') && CollisionsOk(h, b', {})
  {
    CollisionsKept(h, b, AddedSpot(b1, s, id));
  }

  lemma DeletedOlder(h: Hashes, b: Book, id: Id)
    requires CollisionsOk(h, b, {}) && CanDelete(b, id)
    requires forall j :: j in Deleted(h, b, id).mapInfo ==> j in b.mapInfo && SameButPos(b.mapInfo[j], Deleted(h, b, id).mapInfo[j])
    requires var b' := Deleted(h, b, id); b'.vvTried == b.vvTried && b'.collisions == b.collisions && b'.nIdCount == b.nIdCount
    ensures var b' := Deleted(h, b, id); Older(b, b') && CollisionsOk(h, b', {})
  {
    CollisionsKept(h, b, Deleted(h, b, id));
  }

  /** A new entry with its time adjusted. */
  lemma CreatedForInv(h: Hashes, b: Book, a: Announcement, source: Source, time: int) returns (b2: Book)
    requires Consistent(h, b) && a.addr !in b.mapAddr
    ensures var id, b1 := b.nIdCount, Created(h, b, a.addr, a.nTime, a.nServices, source);
      b2 == b1.(mapInfo := b1.mapInfo[id := b1.mapInfo[id].(nTime := time)])
    ensures b.nIdCount !in b.mapInfo && b2.mapInfo == b.mapInfo[b.nIdCount := b2.mapInfo[b.nIdCount]]
    ensures Inv(h, b2, {b.nIdCount}, {}) && CollisionsOk(h, b2, {}) && Older(b, b2) && StatsKept(b, b2, {})
  {
    CreatedIndexed(h, b, a.addr, a.nTime, a.nServices, source);
    var id, b1 := b.nIdCount, Created(h, b, a.addr, a.nTime, a.nServices, source);
    CreatedInv(h, b, a.addr, a.nTime, a.nServices, source, {});
    TouchedInv(h, b1, id, b1.mapInfo[id].(nTime := time), {id});
    CreatedOlder(h, b, a, source);
    b2 := b1.(mapInfo := b1.mapInfo[id := b1.mapInfo[id].(nTime := time)]);
    OlderTrans(b, b1, b2);
    forall j ensures StatsAt(b, b2, j) {
    }
  }

  // ---------------------------------------------------------------- adding an address

  /** An entry just made for an announcement, in its first position: never tried, its time reduced by the penalty. */
  ghost predicate MadeFor(a: Announcement, source: Source, penalty: int, info: AddrInfo) {
    && info.addr == a.addr && info.source == source && info.nServices == a.nServices
    && info.nTime == Max(0, a.nTime - penalty)
    && info.lastTry == info.lastSuccess == info.lastCountAttempt == info.nAttempts == 0
    && info.nRefCount == 1 && !info.fInTried
  }

  /** Where an announced address belongs. */
  function SpotFor(h: Hashes, a: Announcement, source: Source): Spot {
    NewSpot(h, a.addr, GetNewBucket(h, a.addr, source))
  }

  /** The id that the address has, or will get. */
  function IdFor(b: Book, addr: Service): Id {
    if addr in b.mapAddr then b.mapAddr[addr] else b.nIdCount
  }

  /** What an announcement tells about a known entry. */
  function Refreshed(info: AddrInfo, a: Announcement, penalty: int, now: int): AddrInfo {
    var interval := if now - a.nTime < DAY then HOUR else DAY;
    var time := if info.nTime >= a.nTime - interval - penalty then info.nTime else if a.nTime < penalty then 0 else a.nTime - penalty;
    info.(nTime := time, nServices := info.nServices + a.nServices)
  }

  /** Whether a refreshed entry gets a chance at another position. */
  predicate SeeksPlace(info: AddrInfo, a: Announcement, lucky: bool) {
    info.nTime < a.nTime && !info.fInTried && info.nRefCount != NEW_BUCKETS_PER_ADDRESS && (info.nRefCount != 0 ==> lucky)
  }

  /** The position is free, or what is there gives way to id. */
  predicate Yields(b: Book, s: Spot, id: Id, refs: int, now: int) {
    s in b.vvNew ==>
      && b.vvNew[s] != id && b.vvNew[s] in b.mapInfo
      && var existing := b.mapInfo[b.vvNew[s]]; IsTerrible(existing, now) || (existing.nRefCount > 1 && refs == 0)
  }

  predicate AddsKnown(h: Hashes, b: Book, id: Id, a: Announcement, source: Source, penalty: int, now: int, lucky: bool) {
    && id in b.mapInfo && SeeksPlace(Refreshed(b.mapInfo[id], a, penalty, now), a, lucky)
    && Yields(b, SpotFor(h, a, source), id, b.mapInfo[id].nRefCount, now)
  }

  /** Whether the address gets a position in the new table. */
  predicate Adds(h: Hashes, b: Book, a: Announcement, source: Source, penalty: int, now: int, lucky: bool) {
    && h.routable(a.addr)
    && if a.addr in b.mapAddr then AddsKnown(h, b, b.mapAddr[a.addr], a, source, penalty, now, lucky)
       else Yields(b, SpotFor(h, a, source), b.nIdCount, 0, now)
  }

  /** The entry of a known address is refreshed, and counts one reference more if it was added. */
  ghost predicate KnownAfter(b: Book, b': Book, id: Id, a: Announcement, penalty: int, now: int, added: bool) {
    && id in b.mapInfo && id in b'.mapInfo
    && var info := Refreshed(b.mapInfo[id], a, penalty, now);
       SameButPos(info.(nRefCount := info.nRefCount + if added then 1 else 0), b'.mapInfo[id])
  }

  /** id has taken position s. */
  ghost predicate Inserted(b: Book, b': Book, s: Spot, id: Id) {
    && id in b.mapInfo && id in b'.mapInfo && SameButPos(b.mapInfo[id].(nRefCount := b.mapInfo[id].nRefCount + 1), b'.mapInfo[id])
    && b'.vvNew == b.vvNew[s := id] && b'.vvTried == b.vvTried && StatsKept(b, b', {})
  }

  /** id found no position: it goes if it has none, else nothing happens. */
  ghost predicate GivenUp(b: Book, b': Book, id: Id) {
    && id in b.mapInfo && b'.vvNew == b.vvNew && b'.vvTried == b.vvTried && StatsKept(b, b', {})
    && if b.mapInfo[id].nRefCount == 0 then b.mapInfo[id].addr !in b'.mapAddr else b' == b
  }

  /** Changing or making the entry id does not change who gives way to it. */
  lemma YieldsSame(b: Book, b': Book, s: Spot, id: Id, refs: int, now: int)
    requires b'.vvNew == b.vvNew && id in b'.mapInfo && b'.mapInfo == b.mapInfo[id := b'.mapInfo[id]]
    ensures Yields(b, s, id, refs, now) <==> Yields(b', s, id, refs, now)
  {
  }

  lemma InsertedInv(h: Hashes, b: Book, s: Spot, b1: Book, id: Id, unplaced: set<Id>) returns (b2: Book)
    requires Inv(h, b1, unplaced, {}) && CollisionsOk(h, b, {}) && Cleared(b, s, b1) && id in b.mapInfo && !b.mapInfo[id].fInTried
    requires b.mapInfo[id].nRefCount < NEW_BUCKETS_PER_ADDRESS && unplaced <= {id} && (s in b.vvNew ==> b.vvNew[s] != id)
    requires s.bucket < NEW_BUCKET_COUNT && s == NewSpot(h, b.mapInfo[id].addr, s.bucket)
    ensures id in b1.mapInfo && b2 == AddedSpot(b1, s, id)
    ensures Consistent(h, b2) && Older(b, b2) && Inserted(b, b2, s, id)
  {
    assert Survives(b, b1, id);
    assert unplaced - {id} == {};
    AddedInv(h, b1, s, id, unplaced, {});
    ClearedOlder(h, b, s, b1, id);
    b2 := AddedSpot(b1, s, id);
    ClearedStats(b, s, b1);
    forall j ensures StatsAt(b, b2, j) {
      assert StatsAt(b, b1, j);
    }
    assert (b.vvNew - {s})[s := id] == b.vvNew[s := id];
  }

  lemma DroppedUnplaced(h: Hashes, b: Book, id: Id) returns (b': Book)
    requires Inv(h, b, {id}, {}) && CollisionsOk(h, b, {}) && id in b.mapInfo && b.mapInfo[id].nRefCount == 0
    ensures CanDelete(b, id) && b' == Deleted(h, b, id)
    ensures Consistent(h, b') && Older(b, b') && GivenUp(b, b', id)
  {
    DeletedInv(h, b, id, {id}, {});
    assert {id} - {id} == {};
    DeletedOlder(h, b, id);
    b' := Deleted(h, b, id);
    forall j ensures StatsAt(b, b', j) {
      if j in b'.mapInfo {
        assert SameButPos(b.mapInfo[j], b'.mapInfo[j]);
      }
    }
    DeletedAddr(h, b, id);
  }

  lemma DeletedAddr(h: Hashes, b: Book, id: Id)
    requires Indexed(b) && CanDelete(b, id)
    ensures b.mapInfo[id].addr !in Deleted(h, b, id).mapAddr
  {
    SwappedEntries(b, b.mapInfo[id].nRandomPos, |b.vRandom| - 1);
  }

  lemma RefreshTouches(h: Hashes, b: Book, id: Id, a: Announcement, penalty: int, now: int)
    requires Consistent(h, b) && id in b.mapInfo
    ensures Touchable(b.mapInfo[id], Refreshed(b.mapInfo[id], a, penalty, now))
    ensures !b.mapInfo[id].fInTried ==> 0 < b.mapInfo[id].nRefCount <= NEW_BUCKETS_PER_ADDRESS
  {
    EntryRefs(h, b, id, {});
  }

  lemma OlderTrans(b: Book, b1: Book, b2: Book)
    requires Older(b, b1) && Older(b1, b2)
    ensures Older(b, b2)
  {
  }

  lemma CreatedOlder(h: Hashes, b: Book, a: Announcement, source: Source)
    ensures var b' := Created(h, b, a.addr, a.nTime, a.nServices, source); Older(b, b')
  {
  }

  lemma KeepsTrans(a: Book, b: Book, c: Book)
    requires Keeps(a, b) && Keeps(b, c)
    ensures Keeps(a, c)
  {
  }

  /** An attempt counts as a failure at most once between two successes. */
  function Attempted(info: AddrInfo, countFailure: bool, lastGood: int, time: int): AddrInfo {
    if countFailure && info.lastCountAttempt < lastGood
    then info.(lastTry := time, lastCountAttempt := time, nAttempts := info.nAttempts + 1)
    else info.(lastTry := time)
  }

  lemma AttemptTouches(h: Hashes, b: Book, id: Id, countFailure: bool, time: int)
    requires Consistent(h, b) && id in b.mapInfo && time >= 0
    ensures forall lastGood :: Touchable(b.mapInfo[id], Attempted(b.mapInfo[id], countFailure, lastGood, time))
  {
    EntryRefs(h, b, id, {});
  }

  lemma SuccessTouches(h: Hashes, b: Book, id: Id, time: int)
    requires Consistent(h, b) && id in b.mapInfo && time > 0
    ensures Touchable(b.mapInfo[id], b.mapInfo[id].(lastSuccess := time, lastTry := time, nAttempts := 0))
    ensures b.mapInfo[id].fInTried || b.mapInfo[id].nRefCount > 0
  {
    EntryRefs(h, b, id, {});
  }

  lemma NoLongerCounted(h: Hashes, b: Book, id: Id, unplaced: set<Id>) returns (b': Book)
    requires Inv(h, b, unplaced, {}) && id in b.mapInfo && !b.mapInfo[id].fInTried
    ensures b' == RecountedNew(h, b, id, -1) && Inv(h, b', unplaced, {id})
  {
    RecountedInv(h, b, id, false, unplaced, {});
    assert Mark({}, id, true) == {id};
    b' := RecountedNew(h, b, id, -1);
  }

  /** The entry is out of the new table; nothing else changed. */
  ghost predicate Detached(b: Book, b': Book, id: Id) {
    && id in b.mapInfo && b'.mapInfo == b.mapInfo[id := b.mapInfo[id].(nRefCount := 0)]
    && b'.vvTried == b.vvTried && b'.nIdCount == b.nIdCount && b'.collisions == b.collisions
    && b'.vvNew == Without(b.vvNew, id)
  }

  /** Where an entry belongs in the new table by its own source. */
  function HomeSpot(h: Hashes, info: AddrInfo): Spot {
    NewSpot(h, info.addr, GetNewBucket(h, info.addr, info.source))
  }

  /** The new table t once what occupies tried position s of b has moved back to it. */
  function Returned(h: Hashes, b: Book, s: Spot, t: map<Spot, Id>): map<Spot, Id> {
    if s in b.vvTried && b.vvTried[s] in b.mapInfo then t[HomeSpot(h, b.mapInfo[b.vvTried[s]]) := b.vvTried[s]] else t
  }

  /** The new table once id is tried: id has left it, and what it replaces has come back. */
  function NewAfterTried(h: Hashes, b: Book, id: Id): map<Spot, Id>
    requires id in b.mapInfo
  {
    Returned(h, b, TriedSpot(h, b.mapInfo[id].addr), Without(b.vvNew, id))
  }

  /** The entry at tried position s is still known, but no longer tried. */
  ghost predicate BackInNew(b: Book, s: Spot, b': Book) {
    s in b.vvTried ==> b.vvTried[s] in b'.mapInfo && !b'.mapInfo[b.vvTried[s]].fInTried
  }

  /** Position s is free, what was there is in the new table again; id is as it was. */
  ghost predicate SpaceMade(h: Hashes, b: Book, b': Book, s: Spot, id: Id) {
    && BackInNew(b, s, b')
    && b'.vvTried == b.vvTried - {s} && b'.nIdCount == b.nIdCount && b'.collisions == b.collisions && Survives(b, b', id)
    && (forall j :: j in b'.mapInfo ==> j in b.mapInfo && SameStats(b.mapInfo[j], b'.mapInfo[j]))
    && b'.vvNew == Returned(h, b, s, b.vvNew)
  }

  lemma NoSpaceNeeded(h: Hashes, b: Book, s: Spot, id: Id)
    requires id in b.mapInfo && s !in b.vvTried
    ensures SpaceMade(h, b, b, s, id)
  {
    assert b.vvTried - {s} == b.vvTried;
  }

  /** Nothing is lost, and collisions stay as recorded. */
  ghost predicate Older(b: Book, b': Book) {
    Keeps(b, b') && b'.collisions == b.collisions
  }

  lemma EvictedFrom(h: Hashes, b: Book, s: Spot, id: Id)
    requires Inv(h, b, {id}, {id}) && s in b.vvTried
    ensures b.vvTried[s] in b.mapInfo && b.vvTried[s] != id
    ensures Inv(h, Evicted(h, b, s, b.vvTried[s]), {id} + {b.vvTried[s]}, {id} + {b.vvTried[s]})
  {
    TriedIsPlaced(h, b, s, id);
    EvictedInv(h, b, s, b.vvTried[s], {id}, {id});
  }

  lemma TriedIsPlaced(h: Hashes, b: Book, s: Spot, id: Id)
    requires TriedTableOk(h, b) && RefsOk(b, {id}) && s in b.vvTried
    ensures b.vvTried[s] in b.mapInfo && b.vvTried[s] != id
  {
    var e := b.vvTried[s];
    assert TriedEntryOk(h, b.mapInfo, s, e);
    assert RefAt(b, {id}, e);
  }

  /** Unplaced entries are not in the new table. */
  lemma NotInNew(h: Hashes, b: Book, x: Id, y: Id)
    requires Inv(h, b, {x} + {y}, {x} + {y}) && x in b.mapInfo && y in b.mapInfo
    ensures forall s :: s in b.vvNew ==> b.vvNew[s] !in {x} + {y}
  {
    assert RefAt(b, {x} + {y}, x);
    NowhereNew(b, x);
    assert RefAt(b, {x} + {y}, y);
    NowhereNew(b, y);
  }

  /** The evicted entry goes back to the new table and is counted again. */
  lemma Reentered(h: Hashes, b: Book, s: Spot, e: Id, id: Id)
    requires Inv(h, b, {id} + {e}, {id} + {e}) && s !in b.vvNew && e in b.mapInfo && !b.mapInfo[e].fInTried && e != id
    requires s.bucket < NEW_BUCKET_COUNT && s == NewSpot(h, b.mapInfo[e].addr, s.bucket)
    ensures b.mapInfo[e].nRefCount == 0 && Inv(h, RecountedNew(h, AddedSpot(b, s, e), e, 1), {id}, {id})
  {
    assert RefAt(b, {id} + {e}, e);
    AddedInv(h, b, s, e, {id} + {e}, {id} + {e});
    assert {id} + {e} - {e} == {id};
    RecountedInv(h, AddedSpot(b, s, e), e, true, {id}, {id} + {e});
  }

  /** The evicted entry and id are still there when the new position has been cleared. */
  lemma EvictedSurvives(h: Hashes, b: Book, b1: Book, b2: Book, s: Spot, spot: Spot, id: Id, e: Id)
    requires id in b.mapInfo && e in b.mapInfo && e != id && s in b.vvTried && b.vvTried[s] == e && b1 == Evicted(h, b, s, e)
    requires Cleared(b1, spot, b2) && spot == HomeSpot(h, b.mapInfo[e]) && (forall t :: t in b1.vvNew ==> b1.vvNew[t] !in {id} + {e})
    ensures e in b2.mapInfo && !b2.mapInfo[e].fInTried && b2.mapInfo[e].addr == b.mapInfo[e].addr
    ensures b2.mapInfo[e].nRefCount == 0 ==> SpaceMade(h, b, RecountedNew(h, AddedSpot(b2, spot, e), e, 1), s, id)
  {
    assert Survives(b1, b2, id) && Survives(b1, b2, e);
    assert SameButPos(b.mapInfo[id], b2.mapInfo[id]);
    assert (b1.vvNew - {spot})[spot := e] == b1.vvNew[spot := e];
  }

  lemma NotTriedYet(h: Hashes, b: Book, s: Spot, id: Id)
    requires TriedTableOk(h, b) && id in b.mapInfo && !b.mapInfo[id].fInTried
    ensures s in b.vvTried ==> b.vvTried[s] != id
  {
    assert s in b.vvTried ==> TriedEntryOk(h, b.mapInfo, s, b.vvTried[s]);
  }

  /** Once the position is filled again, every recorded collision points at an occupied position. */
  lemma TriedCollisions(h: Hashes, b: Book, b1: Book, b2: Book, s: Spot, id: Id)
    requires CollisionsOk(h, b, {}) && Detached(b, b1, id) && SpaceMade(h, b1, b2, s, id) && s == TriedSpot(h, b.mapInfo[id].addr)
    requires s in b.vvTried ==> b.vvTried[s] != id
    ensures var b' := Tried(h, b2, s, id);
      CollisionsOk(h, b', {}) && Older(b, b') && BackInNew(b, s, b') && b'.vvTried == b.vvTried[s := id] && b2.mapInfo[id].addr == b.mapInfo[id].addr && b2.mapInfo[id].lastSuccess == b.mapInfo[id].lastSuccess
    ensures b2.vvNew == NewAfterTried(h, b, id) && StatsKept(b, Tried(h, b2, s, id), {})
  {
    var b' := Tried(h, b2, s, id);
    forall j ensures StatsAt(b, b', j) {
      if j in b'.mapInfo {
        assert SameStats(b1.mapInfo[j], b2.mapInfo[j]);
      }
    }
  }

  lemma BucketLeft(h: Hashes, b: Book, b1: Book, id: Id, start: nat, n: nat)
    requires Leaving(b, b1, id) && b1.mapInfo[id].nRefCount != 0 && Inv(h, b1, {}, {})
    requires NotInFirst(h, b1.vvNew, b.mapInfo[id].addr, id, start, n)
    ensures var s := NewSpot(h, b.mapInfo[id].addr, Nth(start, n));
      var b2 := if s in b1.vvNew && b1.vvNew[s] == id then DroppedSpot(b1, s, id) else b1;
      && Leaving(b, b2, id) && Inv(h, b2, Mark({}, id, b2.mapInfo[id].nRefCount == 0), {})
      && NotInFirst(h, b2.vvNew, b.mapInfo[id].addr, id, start, n + 1)
  {
    var s := NewSpot(h, b.mapInfo[id].addr, Nth(start, n));
    NoneMark(id);
    NotInNext(h, b1.vvNew, b.mapInfo[id].addr, id, start, n);
    if s in b1.vvNew && b1.vvNew[s] == id {
      DroppedInv(h, b1, s, id, {}, {});
      LeavingStep(b, b1, id, s);
    }
  }

  lemma NoneMark(id: Id)
    ensures Mark({}, id, false) == {}
  {
  }

  lemma NotInNext(h: Hashes, t: map<Spot, Id>, addr: Service, id: Id, start: nat, n: nat)
    requires NotInFirst(h, t, addr, id, start, n)
    ensures var s := NewSpot(h, addr, Nth(start, n));
      NotInFirst(h, if s in t && t[s] == id then t - {s} else t, addr, id, start, n + 1)
  {
    var s := NewSpot(h, addr, Nth(start, n));
    var t' := if s in t && t[s] == id then t - {s} else t;
    forall m: nat | m < n + 1 ensures NotAt(t', NewSpot(h, addr, Nth(start, m)), id) {
      if m < n { assert NotAt(t, NewSpot(h, addr, Nth(start, m)), id); }
    }
  }

  function Nth(start: nat, n: nat): nat {
    (start + n) % NEW_BUCKET_COUNT
  }

  /** The entry is in none of the first n buckets that were visited. */
  ghost predicate NotInFirst(h: Hashes, t: map<Spot, Id>, addr: Service, id: Id, start: nat, n: nat) {
    forall m: nat :: m < n ==> NotAt(t, NewSpot(h, addr, Nth(start, m)), id)
  }

  ghost predicate NotAt(t: map<Spot, Id>, s: Spot, id: Id) {
    !(s in t && t[s] == id)
  }

  ghost predicate ThinnedAt(t: map<Spot, Id>, t': map<Spot, Id>, id: Id, s: Spot) {
    (s in t' ==> s in t && t'[s] == t[s]) && (s in t && t[s] != id ==> s in t')
  }

  /** Only positions of id have been emptied. */
  ghost predicate Thinned(t: map<Spot, Id>, t': map<Spot, Id>, id: Id) {
    forall s {:trigger ThinnedAt(t, t', id, s)} :: ThinnedAt(t, t', id, s)
  }

  lemma ThinnedStep(t: map<Spot, Id>, t': map<Spot, Id>, id: Id, s: Spot)
    requires Thinned(t, t', id) && s in t' && t'[s] == id
    ensures Thinned(t, t' - {s}, id)
  {
    forall r ensures ThinnedAt(t, t' - {s}, id, r) {
      assert ThinnedAt(t, t', id, r) && ThinnedAt(t, t', id, s);
    }
  }

  /** The table without the positions of id. */
  function Without(t: map<Spot, Id>, id: Id): map<Spot, Id> {
    map s | s in t && t[s] != id :: t[s]
  }

  lemma ThinnedAll(b: Book, b': Book, id: Id)
    requires Leaving(b, b', id) && RefsOk(b', {id}) && b'.mapInfo[id].nRefCount == 0
    ensures b'.vvNew == Without(b.vvNew, id)
  {
    assert RefAt(b', {id}, id);
    NowhereNew(b', id);
    forall s ensures s in b'.vvNew <==> s in b.vvNew && b.vvNew[s] != id {
      assert ThinnedAt(b.vvNew, b'.vvNew, id, s);
    }
    forall s | s in b'.vvNew ensures b'.vvNew[s] == b.vvNew[s] {
      assert ThinnedAt(b.vvNew, b'.vvNew, id, s);
    }
  }

  /** Only id's reference count and the new table differ. */
  ghost predicate Leaving(b: Book, b': Book, id: Id) {
    && id in b.mapInfo && id in b'.mapInfo && Thinned(b.vvNew, b'.vvNew, id)
    && b' == b.(vvNew := b'.vvNew, mapInfo := b.mapInfo[id := b.mapInfo[id].(nRefCount := b'.mapInfo[id].nRefCount)])
  }

  lemma LeavingStart(b: Book, id: Id)
    requires RefsOk(b, {}) && id in b.mapInfo && !b.mapInfo[id].fInTried
    ensures Leaving(b, b, id) && b.mapInfo[id].nRefCount != 0 && Mark({}, id, false) == {}
  {
    assert RefAt(b, {}, id);
    assert b.mapInfo[id := b.mapInfo[id].(nRefCount := b.mapInfo[id].nRefCount)] == b.mapInfo;
  }

  lemma LeavingStep(b: Book, b1: Book, id: Id, s: Spot)
    requires Leaving(b, b1, id) && s in b1.vvNew && b1.vvNew[s] == id
    ensures Leaving(b, DroppedSpot(b1, s, id), id)
  {
    ThinnedStep(b.vvNew, b1.vvNew, id, s);
    var m := b.mapInfo[id := b.mapInfo[id].(nRefCount := b1.mapInfo[id].nRefCount)];
    var e := b.mapInfo[id].(nRefCount := b1.mapInfo[id].nRefCount - 1);
    assert m[id := e] == b.mapInfo[id := e];
  }

  /** After all buckets have been visited, the entry is nowhere in the new table. */
  lemma AllBucketsVisited(h: Hashes, b: Book, id: Id, start: nat)
    requires NewTableOk(h, b) && RefsOk(b, {}) && id in b.mapInfo && start < NEW_BUCKET_COUNT
    requires NotInFirst(h, b.vvNew, b.mapInfo[id].addr, id, start, NEW_BUCKET_COUNT)
    ensures b.mapInfo[id].nRefCount == 0
  {
    assert RefAt(b, {}, id);
    assert SpotsOf(b.vvNew, id) == {} by {
      forall s | s in b.vvNew ensures b.vvNew[s] != id {
        assert NewEntryOk(h, b.mapInfo, s, b.vvNew[s]);
        var m: nat := if s.bucket >= start then s.bucket - start else s.bucket + NEW_BUCKET_COUNT - start;
        assert Nth(start, m) == s.bucket;
        assert NotAt(b.vvNew, NewSpot(h, b.mapInfo[id].addr, Nth(start, m)), id);
      }
    }
  }

  lemma InTheNewTable(h: Hashes, b: Book, s: Spot)
    requires NewTableOk(h, b) && s in b.vvNew
    ensures b.vvNew[s] in b.mapInfo && !b.mapInfo[b.vvNew[s]].fInTried
  {
    assert NewEntryOk(h, b.mapInfo, s, b.vvNew[s]);
  }

  lemma EmptyConsistent(h: Hashes)
    ensures Consistent(h, EmptyBook)
  {
    assert Members(h, map[], {}, false, None) == {} && Members(h, map[], {}, true, None) == {};
    forall net: Network ensures CountOf(map[], net) == TrueCount(h, map[], {}, net) {
      assert Members(h, map[], {}, false, Some(net)) == {} && Members(h, map[], {}, true, Some(net)) == {};
    }
  }

  // ---------------------------------------------------------------- whole runs

  datatype Op =
    | Add(a: Announcement, source: Source, selfAnnounced: bool, timePenalty: int, now: int, lucky: bool)
    | GoodOp(addr: Service, testBeforeEvict: bool, time: int)
    | AttemptOp(addr: Service, countFailure: bool, time: int)
    | Resolve(now: int)
    | Select(idNew: Id)

  /** Clocks show positive times. */
  predicate Timely(op: Op) {
    match op
    case Add(_, _, _, _, _, _) => true
    case GoodOp(_, _, time) => time > 0
    case AttemptOp(_, _, time) => time >= 0
    case Resolve(now) => now > 0
    case Select(_) => true
  }

  /** Only a recorded collision can be drawn; the id in its tried position is known. */
  method SelectRecorded(m: AddrMan, idNew: Id)
    requires m.Valid()
    modifies m
    ensures m.Valid() && Keeps(old(m.Value()), m.Value())
  {
    if m.triedCollisions != {} && idNew !in m.triedCollisions {
      return;
    }
    var r := m.SelectTriedCollision(idNew);
    assert idNew in old(m.triedCollisions) && idNew in old(m.mapInfo) ==> r.Some?;
  }

  method Perform(m: AddrMan, op: Op)
    requires m.Valid() && Timely(op)
    modifies m
    ensures m.Valid() && Keeps(old(m.Value()), m.Value())
  {
    match op
    case Add(a, source, selfAnnounced, timePenalty, now, lucky) => var _ := m.AddSingle(a, source, selfAnnounced, timePenalty, now, lucky);
    case GoodOp(addr, testBeforeEvict, time) => var _ := m.Good(addr, testBeforeEvict, time);
    case AttemptOp(addr, countFailure, time) => m.Attempt(addr, countFailure, time);
    case Resolve(now) => ghost var _ := m.ResolveCollisions(now);
    case Select(idNew) => SelectRecorded(m, idNew);
  }

  /** After any run the check passes, no tried position has been emptied and no id reused. */
  method Run(m: AddrMan, ops: seq<Op>)
    requires m.Valid() && m.h.key != 0 && forall i :: 0 <= i < |ops| ==> Timely(ops[i])
    modifies m
    ensures m.Valid() && Keeps(old(m.Value()), m.Value()) && CheckPasses(m.h, m.Value())
  {
    for i := 0 to |ops|
      invariant m.Valid() && Keeps(old(m.Value()), m.Value())
    {
      Perform(m, ops[i]);
    }
    ConsistentPasses(m.h, m.Value());
    ConsistentInBounds(m.h, m.Value());
    var code := CheckAddrman(m.h, m.Value());
    assert code == 0;
  }
}
