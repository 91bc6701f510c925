/**
 What the rules of the address manager come to: over a run of attempts and successes failures only
 count while other connections work (src/addrman.cpp:69-92, :626-644 and :693-711), announcements
 keep an entry up to date (:562-570), and every recorded collision ends (:912-973).
 */
module AddrStats {
  import opened Options
  import opened AddrBooks
  import opened AddrMans

  /** An attempt at the entry, a success with it (own), or with another address. */
  datatype Event = Attempt(countFailure: bool, time: int) | Success(own: bool, time: int)

  /** The entry and m_last_good. */
  datatype Record = Record(info: AddrInfo, lastGood: int)

  function Happened(r: Record, e: Event): Record {
    match e
    case Attempt(countFailure, time) => r.(info := Attempted(r.info, countFailure, r.lastGood, time))
    case Success(own, time) =>
      Record(if own then r.info.(lastSuccess := time, lastTry := time, nAttempts := 0) else r.info, time)
  }

  function After(r: Record, events: seq<Event>): Record
    decreases |events|
  {
    if events == [] then r else Happened(After(r, events[..|events| - 1]), events[|events| - 1])
  }

  function Successes(events: seq<Event>): nat
    decreases |events|
  {
    if events == [] then 0
    else Successes(events[..|events| - 1]) + if events[|events| - 1].Success? then 1 else 0
  }

  /** Nothing happens before the last success known. */
  predicate InOrder(r: Record, events: seq<Event>)
    decreases |events|
  {
    events == [] || (InOrder(r, events[..|events| - 1]) && events[|events| - 1].time >= After(r, events[..|events| - 1]).lastGood)
  }

  function Countable(r: Record): nat {
    if r.info.lastCountAttempt < r.lastGood then 1 else 0
  }

  /** Between two successes at most one attempt counts as a failure. */
  lemma {:induction false} FailuresBounded(r: Record, events: seq<Event>)
    requires InOrder(r, events) && r.info.nAttempts >= 0
    ensures var r' := After(r, events);
      0 <= r'.info.nAttempts && r'.info.nAttempts + Countable(r') <= r.info.nAttempts + Countable(r) + Successes(events)
    decreases |events|
  {
    if events != [] {
      FailuresBounded(r, events[..|events| - 1]);
    }
  }

  /** Only an own success changes when the entry last succeeded; its times of announcement stay. */
  lemma {:induction false} NeverSucceeded(r: Record, events: seq<Event>)
    requires forall e :: e in events ==> e.Attempt? || !e.own
    ensures var r' := After(r, events); r'.info.lastSuccess == r.info.lastSuccess && r'.info.nTime == r.info.nTime
    decreases |events|
  {
    if events != [] {
      NeverSucceeded(r, events[..|events| - 1]);
    }
  }

  /** While hardly anything else succeeds, attempts never make a recently announced new address terrible: with no
      success at all (the network is down) any number of attempts leaves it alone. */
  lemma OutageHarmless(r: Record, events: seq<Event>, now: int)
    requires InOrder(r, events) && r.info.nAttempts == 0 && Successes(events) < RETRIES - 1
    requires now - HORIZON <= r.info.nTime <= now + 600 && forall e :: e in events ==> e.Attempt? || !e.own
    ensures !IsTerrible(After(r, events).info, now)
  {
    FailuresBounded(r, events);
    NeverSucceeded(r, events);
  }

  /** Three failures, each after another success elsewhere, make an address that never succeeded terrible. */
  lemma ThreeFailures(r: Record, t1: int, g2: int, t2: int, g3: int, t3: int, now: int)
    requires r.info.lastSuccess == 0 && r.info.nAttempts >= 0 && r.info.lastCountAttempt < r.lastGood && t1 < g2 && t2 < g3 && now > t3 + 60
    ensures IsTerrible(After(r, [Attempt(true, t1), Success(false, g2), Attempt(true, t2), Success(false, g3), Attempt(true, t3)]).info, now)
  {
    FiveEvents(r, Attempt(true, t1), Success(false, g2), Attempt(true, t2), Success(false, g3), Attempt(true, t3));
  }

  lemma FiveEvents(r: Record, a: Event, b: Event, c: Event, d: Event, e: Event)
    ensures After(r, [a, b, c, d, e]) == Happened(Happened(Happened(Happened(Happened(r, a), b), c), d), e)
  {
    AfterNext(r, [], a);
    AfterNext(r, [a], b);
    AfterNext(r, [a, b], c);
    AfterNext(r, [a, b, c], d);
    AfterNext(r, [a, b, c, d], e);
    assert [] + [a] == [a] && [a] + [b] == [a, b] && [a, b] + [c] == [a, b, c];
    assert [a, b, c] + [d] == [a, b, c, d] && [a, b, c, d] + [e] == [a, b, c, d, e];
  }

  lemma AfterNext(r: Record, events: seq<Event>, e: Event)
    ensures After(r, events + [e]) == Happened(After(r, events), e)
  {
    assert (events + [e])[..|events|] == events;
  }

  /** For a week after a success no number of failures makes an entry terrible. */
  lemma SuccessLasts(r: Record, time: int, events: seq<Event>, now: int)
    requires forall e :: e in events ==> e.Attempt? || !e.own
    requires time > 0 && now - time <= MIN_FAIL && now - HORIZON <= r.info.nTime <= now + 600
    ensures !IsTerrible(After(Happened(r, Success(true, time)), events).info, now)
  {
    NeverSucceeded(Happened(r, Success(true, time)), events);
  }

  // ---------------------------------------------------------------- announcements

  /** The time of an entry never goes back nor beyond what was announced, stays at most a day behind (an hour, if
      the address is said to be online), and repeating an announcement changes nothing. */
  lemma RefreshedUpToDate(info: AddrInfo, a: Announcement, penalty: int, now: int)
    requires info.nTime >= 0 && penalty >= 0
    ensures var info' := Refreshed(info, a, penalty, now);
      && info.nTime <= info'.nTime && (info'.nTime > info.nTime ==> info'.nTime == a.nTime - penalty)
      && a.nTime - penalty - DAY <= info'.nTime && (now - a.nTime < DAY ==> a.nTime - penalty - HOUR <= info'.nTime)
      && info.nServices + a.nServices == info'.nServices
      && Refreshed(info', a, penalty, now) == info'
  {
    var info' := Refreshed(info, a, penalty, now);
    assert info'.nServices + a.nServices == info'.nServices;
  }

  /** What is in a new position: an entry that is not terrible and has no other position keeps it. */
  lemma OnlyPositionKept(h: Hashes, b: Book, a: Announcement, source: Source, penalty: int, now: int, lucky: bool)
    requires Consistent(h, b) && SpotFor(h, a, source) in b.vvNew && b.vvNew[SpotFor(h, a, source)] in b.mapInfo
    requires var there := b.mapInfo[b.vvNew[SpotFor(h, a, source)]]; there.nRefCount == 1 && !IsTerrible(there, now)
    ensures !Adds(h, b, a, source, penalty, now, lucky)
  {
  }

  // ---------------------------------------------------------------- collisions

  /** A recorded collision of a known, valid address that is not tried yet, and the entry it collides with. */
  ghost predicate Colliding(h: Hashes, b: Book, id: Id, rival: Id) {
    && id in b.collisions && id in b.mapInfo && h.valid(b.mapInfo[id].addr) && !b.mapInfo[id].fInTried
    && TriedSpot(h, b.mapInfo[id].addr) in b.vvTried && b.vvTried[TriedSpot(h, b.mapInfo[id].addr)] == rival && rival in b.mapInfo
  }

  lemma CollidesWith(h: Hashes, b: Book, id: Id, rival: Id)
    requires Consistent(h, b) && Colliding(h, b, id, rival)
    ensures rival != id && Opponent(h, b, id) == Some(b.mapInfo[rival])
  {
    assert TriedEntryOk(h, b.mapInfo, TriedSpot(h, b.mapInfo[id].addr), rival);
  }

  /** Who succeeded within four hours stays, and the collision is over. */
  lemma WorkingStays(h: Hashes, b: Book, id: Id, rival: Id, now: int, b': Book)
    requires Consistent(h, b) && Colliding(h, b, id, rival) && Turn(h, b, id, now, b')
    requires now < b.mapInfo[rival].lastSuccess + 4 * HOUR || b.mapInfo[rival].lastTry + 60 >= now
    ensures b'.vvTried == b.vvTried && b'.vvNew == b.vvNew
    ensures now < b.mapInfo[rival].lastSuccess + 4 * HOUR ==> id !in b'.collisions
  {
    CollidesWith(h, b, id, rival);
  }

  /** Who was tried more than a minute ago, but not succeeded for four hours, makes room. */
  lemma FailedGivesWay(h: Hashes, b: Book, id: Id, rival: Id, now: int, b': Book)
    requires Consistent(h, b) && Colliding(h, b, id, rival) && Turn(h, b, id, now, b')
    requires b.mapInfo[rival].lastSuccess + 4 * HOUR <= now && b.mapInfo[rival].lastTry + 60 < now < b.mapInfo[rival].lastTry + 4 * HOUR
    ensures b'.vvTried == b.vvTried[TriedSpot(h, b.mapInfo[id].addr) := id] && id !in b'.collisions
  {
    CollidesWith(h, b, id, rival);
  }

  /** No collision outlasts the test window: without an attempt at the entry it collides with, it ends forty minutes
      after the success that caused it; with one, a minute after the attempt. */
  lemma CollisionEnds(h: Hashes, b: Book, id: Id, now: int, b': Book)
    requires Consistent(h, b) && id in b.collisions && Turn(h, b, id, now, b')
    requires id in b.mapInfo ==> b.mapInfo[id].lastSuccess + TEST_WINDOW < now
    requires id in b.mapInfo ==>
      var s := TriedSpot(h, b.mapInfo[id].addr); s in b.vvTried && b.vvTried[s] in b.mapInfo ==> b.mapInfo[b.vvTried[s]].lastTry + 60 < now
    ensures id !in b'.collisions
  {
  }
}
