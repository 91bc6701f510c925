/**
 Two-phase headers synchronization (HeadersSyncState, src/headerssync.cpp).

 In PRESYNC a peer's headers are counted and one commitment bit is kept per period; in REDOWNLOAD
 the same headers are asked for again, checked against the commitments, buffered and released.
 Hashes, the salted bit, the difficulty rule and the work of a header are arbitrary functions.
 */
module HeadersSyncing {
  import opened Numbers

  const HEADER_COMMITMENT_PERIOD: nat := 632
  const REDOWNLOAD_BUFFER_SIZE: nat := 15009

  type Hash = nat

  datatype Header = Header(nVersion: int, hashPrevBlock: Hash, hashMerkleRoot: Hash, nTime: nat, nBits: nat, nNonce: nat)

  /** A header without its predecessor's hash. */
  datatype CompressedHeader = CompressedHeader(nVersion: int, hashMerkleRoot: Hash, nTime: nat, nBits: nat, nNonce: nat) {
    function GetFullHeader(hashPrevBlock: Hash): Header {
      Header(nVersion, hashPrevBlock, hashMerkleRoot, nTime, nBits, nNonce)
    }
  }

  function Compress(h: Header): CompressedHeader {
    CompressedHeader(h.nVersion, h.hashMerkleRoot, h.nTime, h.nBits, h.nNonce)
  }

  datatype Rules = Rules(
    hash: Header -> Hash, bit: Hash -> bool, permitted: (nat, nat, nat) -> bool, proof: nat -> nat)

  /** The block the peer's headers branch from, and what is asked of them. */
  datatype Setup = Setup(rules: Rules, start: Header, startHeight: nat, startWork: nat, minimumWork: nat, commitOffset: nat, maxCommitments: nat)

  datatype State = PRESYNC | REDOWNLOAD | FINAL

  datatype ProcessingResult = ProcessingResult(headers: seq<Header>, success: bool, requestMore: bool)

  function HashOf(c: Setup, h: Header): Hash {
    c.rules.hash(h)
  }

  /** The salted commitment bit of a header. */
  function BitOf(c: Setup, h: Header): bool {
    c.rules.bit(c.rules.hash(h))
  }

  function ProofOf(c: Setup, h: Header): nat {
    c.rules.proof(h.nBits)
  }

  /** PermittedDifficultyTransition. */
  predicate Permits(c: Setup, height: nat, oldBits: nat, newBits: nat) {
    c.rules.permitted(height, oldBits, newBits)
  }

  // ---------------------------------------------------------------- chains of headers

  /** The header before hs[i]. */
  function Before(c: Setup, hs: seq<Header>, i: nat): Header
    requires i <= |hs|
  {
    if i == 0 then c.start else hs[i - 1]
  }

  function Tip(c: Setup, hs: seq<Header>): Header {
    Before(c, hs, |hs|)
  }

  /** hs[i] builds on its predecessor and its difficulty is permitted there. */
  ghost predicate LinkOk(c: Setup, hs: seq<Header>, i: nat)
    requires i < |hs|
  {
    && hs[i].hashPrevBlock == HashOf(c, Before(c, hs, i))
    && Permits(c, c.startHeight + i + 1, Before(c, hs, i).nBits, hs[i].nBits)
  }

  /** An unbroken chain from the start block, each difficulty checked against the true predecessor. */
  ghost predicate Chain(c: Setup, hs: seq<Header>) {
    forall i: nat {:trigger LinkOk(c, hs, i)} :: i < |hs| ==> LinkOk(c, hs, i)
  }

  /** Work of the start block and the first n headers. */
  function WorkTo(c: Setup, hs: seq<Header>, n: nat): nat
    requires n <= |hs|
  {
    if n == 0 then c.startWork else WorkTo(c, hs, n - 1) + ProofOf(c, hs[n - 1])
  }

  function Work(c: Setup, hs: seq<Header>): nat {
    WorkTo(c, hs, |hs|)
  }

  predicate IsCommitted(c: Setup, height: nat) {
    height % HEADER_COMMITMENT_PERIOD == c.commitOffset
  }

  /** The commitment a header adds at its height. */
  function Bits(c: Setup, height: nat, h: Header): seq<bool> {
    if IsCommitted(c, height) then [BitOf(c, h)] else []
  }

  /** The commitment bits of the first n headers. */
  function CommitsTo(c: Setup, hs: seq<Header>, n: nat): seq<bool>
    requires n <= |hs|
  {
    if n == 0 then [] else CommitsTo(c, hs, n - 1) + Bits(c, c.startHeight + n, hs[n - 1])
  }

  function Commits(c: Setup, hs: seq<Header>): seq<bool> {
    CommitsTo(c, hs, |hs|)
  }

  lemma {:induction false} SamePrefix(c: Setup, a: seq<Header>, b: seq<Header>, n: nat)
    requires n <= |a| && a <= b
    ensures WorkTo(c, a, n) == WorkTo(c, b, n) && CommitsTo(c, a, n) == CommitsTo(c, b, n)
  {
    if n > 0 {
      SamePrefix(c, a, b, n - 1);
    }
  }

  /** What one more header adds. */
  lemma Snoc(c: Setup, hs: seq<Header>, h: Header)
    ensures Work(c, hs + [h]) == Work(c, hs) + ProofOf(c, h) && Tip(c, hs + [h]) == h
    ensures Commits(c, hs + [h]) == Commits(c, hs) + Bits(c, c.startHeight + |hs| + 1, h)
  {
    SamePrefix(c, hs, hs + [h], |hs|);
  }

  /** h may follow hs. */
  ghost predicate Follows(c: Setup, hs: seq<Header>, h: Header) {
    && h.hashPrevBlock == HashOf(c, Tip(c, hs))
    && Permits(c, c.startHeight + |hs| + 1, Tip(c, hs).nBits, h.nBits)
  }

  lemma SnocChain(c: Setup, hs: seq<Header>, h: Header)
    ensures Chain(c, hs + [h]) <==> Chain(c, hs) && Follows(c, hs, h)
  {
    var hs' := hs + [h];
    forall i: nat | i < |hs| ensures LinkOk(c, hs, i) <==> LinkOk(c, hs', i) {
      assert Before(c, hs, i) == Before(c, hs', i);
    }
    assert LinkOk(c, hs', |hs|) <==> Follows(c, hs, h);
    if Chain(c, hs) && Follows(c, hs, h) {
      forall i: nat | i < |hs'| ensures LinkOk(c, hs', i) {
        if i < |hs| { assert LinkOk(c, hs, i); }
      }
    }
    if Chain(c, hs') {
      forall i: nat | i < |hs| ensures LinkOk(c, hs, i) {
        assert LinkOk(c, hs', i);
      }
    }
  }

  lemma {:induction false} PrefixGrows(c: Setup, a: seq<Header>, b: seq<Header>)
    requires a <= b
    ensures Commits(c, a) <= Commits(c, b) && Work(c, a) <= Work(c, b) && (Chain(c, b) ==> Chain(c, a))
    decreases |b|
  {
    if |a| < |b| {
      var init := b[..|b| - 1];
      assert b == init + [b[|b| - 1]];
      assert a <= init;
      PrefixGrows(c, a, init);
      Snoc(c, init, b[|b| - 1]);
      SnocChain(c, init, b[|b| - 1]);
    } else {
      assert a == b;
    }
  }

  /** Compressing forgets only the predecessor's hash. */
  lemma FullHeader(h: Header)
    ensures Compress(h).GetFullHeader(h.hashPrevBlock) == h
  {
  }

  function CompressAll(hs: seq<Header>): (cs: seq<CompressedHeader>)
    ensures |cs| == |hs| && forall i :: 0 <= i < |hs| ==> cs[i] == Compress(hs[i])
  {
    seq(|hs|, i requires 0 <= i < |hs| => Compress(hs[i]))
  }

  // ---------------------------------------------------------------- what commitments are worth

  /** Among 632 consecutive heights exactly one carries a commitment. */
  lemma OneCommitmentPerPeriod(c: Setup, from: nat) returns (height: nat)
    requires c.commitOffset < 632
    ensures from <= height < from + 632 && IsCommitted(c, height)
    ensures forall other: nat :: from <= other < from + 632 && IsCommitted(c, other) ==> other == height
  {
    var offset := from % 632;
    height := if offset <= c.commitOffset then from + c.commitOffset - offset else from + 632 + c.commitOffset - offset;
  }

  /** Chains of the same length have as many commitments. */
  lemma {:induction false} SameCount(c: Setup, a: seq<Header>, b: seq<Header>, n: nat)
    requires n <= |a| && n <= |b|
    ensures |CommitsTo(c, a, n)| == |CommitsTo(c, b, n)|
  {
    if n > 0 {
      SameCount(c, a, b, n - 1);
    }
  }

  /** A wrong bit at a committed height shows in the commitments. */
  lemma WrongBit(c: Setup, presynced: seq<Header>, received: seq<Header>, h: Header)
    requires |received| < |presynced| && IsCommitted(c, c.startHeight + |received| + 1)
    requires c.rules.bit(c.rules.hash(h)) != c.rules.bit(c.rules.hash(presynced[|received|]))
    ensures !(Commits(c, received + [h]) <= Commits(c, presynced))
  {
    var n := |received|;
    var same := presynced[..n];
    var first := presynced[..n + 1];
    assert first == same + [presynced[n]];
    Snoc(c, received, h);
    Snoc(c, same, presynced[n]);
    SameCount(c, received, same, n);
    PrefixGrows(c, first, presynced);
    BitDiffers(Commits(c, received), Commits(c, same), BitOf(c, h), BitOf(c, presynced[n]), Commits(c, presynced));
  }

  lemma BitDiffers(a: seq<bool>, b: seq<bool>, x: bool, y: bool, all: seq<bool>)
    requires |a| == |b| && x != y && b + [y] <= all
    ensures !(a + [x] <= all)
  {
    assert (b + [y])[|b|] == all[|b|] && (a + [x])[|a|] != all[|a|];
  }

  /** Before there is enough work, a header whose bit at a committed height is not that of the header first seen there is refused. */
  lemma WrongBitRefused(c: Setup, s: Sync, h: Header)
    requires Ok(c, s) && s.downloadState == REDOWNLOAD && Work(c, s.received + [h]) < c.minimumWork
    requires |s.received| < |s.presynced| && IsCommitted(c, c.startHeight + |s.received| + 1)
    requires c.rules.bit(c.rules.hash(h)) != c.rules.bit(c.rules.hash(s.presynced[|s.received|]))
    ensures !Accepts(c, s, h)
  {
    WrongBit(c, s.presynced, s.received, h);
    if Follows(c, s.received, h) {
      StoredOk(c, s, h);
    }
  }

  // ---------------------------------------------------------------- the state

  /**
   The fields of the object, with what has happened: headers accepted in PRESYNC, headers accepted
   in REDOWNLOAD, those already released, and how many were checked against commitments.
   */
  datatype Sync = Sync(
    currentChainWork: nat, lastHeaderReceived: Header, currentHeight: nat, commitments: seq<bool>,
    redownloaded: seq<CompressedHeader>, bufferLastHeight: nat, bufferLastHash: Hash, bufferFirstPrevHash: Hash,
    redownloadChainWork: nat, processAll: bool, downloadState: State,
    ghost presynced: seq<Header>, ghost received: seq<Header>, ghost released: seq<Header>, ghost checked: nat)

  ghost predicate IsBuffer(c: Setup, received: seq<Header>, released: seq<Header>, buffer: seq<CompressedHeader>, firstPrev: Hash) {
    released <= received && buffer == CompressAll(received[|released|..]) && firstPrev == HashOf(c, Tip(c, released))
  }

  ghost predicate IsProgress(c: Setup, received: seq<Header>, lastHeight: nat, lastHash: Hash, work: nat, all: bool) {
    && Chain(c, received) && lastHeight == c.startHeight + |received| && lastHash == HashOf(c, Tip(c, received))
    && work == Work(c, received) && (all <==> received != [] && Work(c, received) >= c.minimumWork)
  }

  /** Every checked header matched its commitment; checks stop once there is enough work. */
  ghost predicate IsChecked(c: Setup, presynced: seq<Header>, received: seq<Header>, checked: nat, left: seq<bool>, all: bool) {
    && checked <= |received| && (!all ==> checked == |received|)
    && Commits(c, received[..checked]) <= Commits(c, presynced)
    && left == Commits(c, presynced)[|Commits(c, received[..checked])|..]
    && (checked < |received| ==> Work(c, received[..checked + 1]) >= c.minimumWork)
  }

  lemma BufferStep(c: Setup, received: seq<Header>, released: seq<Header>, buffer: seq<CompressedHeader>, firstPrev: Hash, h: Header)
    requires IsBuffer(c, received, released, buffer, firstPrev)
    ensures IsBuffer(c, received + [h], released, buffer + [Compress(h)], firstPrev)
  {
    assert (received + [h])[|released|..] == received[|released|..] + [h];
  }

  lemma ProgressStep(c: Setup, received: seq<Header>, lastHeight: nat, lastHash: Hash, work: nat, all: bool, h: Header)
    requires IsProgress(c, received, lastHeight, lastHash, work, all) && Follows(c, received, h)
    ensures var work' := work + ProofOf(c, h);
      IsProgress(c, received + [h], lastHeight + 1, HashOf(c, h), work', all || work' >= c.minimumWork)
  {
    Snoc(c, received, h);
    SnocChain(c, received, h);
  }

  /** A header that is not checked because there is enough work. */
  lemma UncheckedStep(c: Setup, presynced: seq<Header>, received: seq<Header>, checked: nat, left: seq<bool>, all: bool, h: Header)
    requires IsChecked(c, presynced, received, checked, left, all) && Work(c, received + [h]) >= c.minimumWork
    ensures IsChecked(c, presynced, received + [h], checked, left, true)
  {
    assert (received + [h])[..checked] == received[..checked];
    if checked < |received| {
      assert (received + [h])[..checked + 1] == received[..checked + 1];
    } else {
      assert (received + [h])[..checked + 1] == received + [h];
    }
  }

  /** A header that is checked, at a committed height or not. */
  lemma CheckedStep(c: Setup, presynced: seq<Header>, received: seq<Header>, checked: nat, left: seq<bool>, h: Header)
    requires IsChecked(c, presynced, received, checked, left, false)
    ensures checked == |received|
    ensures var bits := Bits(c, c.startHeight + |received| + 1, h);
      && (Commits(c, received + [h]) <= Commits(c, presynced) <==> bits <= left)
      && (bits <= left ==> IsChecked(c, presynced, received + [h], checked + 1, left[|bits|..], false))
  {
    assert received[..checked] == received && (received + [h])[..checked + 1] == received + [h];
    Snoc(c, received, h);
  }

  ghost predicate Presyncing(c: Setup, s: Sync) {
    && s.lastHeaderReceived == Tip(c, s.presynced) && s.currentHeight == c.startHeight + |s.presynced|
    && s.currentChainWork == Work(c, s.presynced) && s.commitments == Commits(c, s.presynced) && |s.commitments| <= c.maxCommitments
    && s.received == [] && s.released == [] && s.checked == 0 && !s.processAll
  }

  ghost predicate Redownloading(c: Setup, s: Sync) {
    && IsBuffer(c, s.received, s.released, s.redownloaded, s.bufferFirstPrevHash)
    && IsProgress(c, s.received, s.bufferLastHeight, s.bufferLastHash, s.redownloadChainWork, s.processAll)
    && IsChecked(c, s.presynced, s.received, s.checked, s.commitments, s.processAll)
    && Work(c, s.presynced) >= c.minimumWork
  }

  /** Released headers have enough checked headers on top, or enough work in total. */
  ghost predicate Deserved(c: Setup, s: Sync) {
    s.released == [] || |s.released| + REDOWNLOAD_BUFFER_SIZE <= s.checked <= |s.received| || Work(c, s.received) >= c.minimumWork
  }

  /** What holds in every state: released headers are a prefix of an unbroken chain, and deserved. */
  ghost predicate ReleasedOk(c: Setup, s: Sync) {
    s.released <= s.received && Chain(c, s.received) && Chain(c, s.presynced) && Deserved(c, s)
  }

  ghost predicate Ok(c: Setup, s: Sync) {
    && ReleasedOk(c, s)
    && (s.downloadState == PRESYNC ==> Presyncing(c, s))
    && (s.downloadState == REDOWNLOAD ==> Redownloading(c, s) && (s.redownloaded == [] ==> s.received == []))
  }

  // ---------------------------------------------------------------- steps

  function Start(c: Setup): Sync {
    Sync(c.startWork, c.start, c.startHeight, [], [], 0, 0, 0, 0, false, PRESYNC, [], [], [], 0)
  }

  /** One more header in PRESYNC. */
  function Noted(c: Setup, s: Sync, h: Header): Sync {
    s.(currentChainWork := s.currentChainWork + ProofOf(c, h), lastHeaderReceived := h, currentHeight := s.currentHeight + 1,
       commitments := s.commitments + Bits(c, s.currentHeight + 1, h), presynced := s.presynced + [h])
  }

  lemma NotedOk(c: Setup, s: Sync, h: Header)
    requires Ok(c, s) && s.downloadState == PRESYNC && Follows(c, s.presynced, h)
    ensures Noted(c, s, h).commitments == Commits(c, s.presynced + [h])
    ensures |Noted(c, s, h).commitments| <= c.maxCommitments ==> Ok(c, Noted(c, s, h))
  {
    Snoc(c, s.presynced, h);
    SnocChain(c, s.presynced, h);
  }

  /** Enough work has been seen: start over. */
  function Switched(c: Setup, s: Sync): Sync {
    s.(redownloaded := [], bufferLastHeight := c.startHeight, bufferFirstPrevHash := HashOf(c, c.start),
       bufferLastHash := HashOf(c, c.start), redownloadChainWork := c.startWork, downloadState := REDOWNLOAD)
  }

  lemma SwitchedOk(c: Setup, s: Sync)
    requires Ok(c, s) && s.downloadState == PRESYNC && s.currentChainWork >= c.minimumWork
    ensures Ok(c, Switched(c, s))
  {
    var s' := Switched(c, s);
    assert s'.received[..0] == [];
    assert Commits(c, []) == [] && Tip(c, []) == c.start;
    assert CompressAll(s'.received[0..]) == [];
  }

  /** Whether the total work is now enough. */
  function AllNow(c: Setup, s: Sync, h: Header): bool {
    s.processAll || s.redownloadChainWork + ProofOf(c, h) >= c.minimumWork
  }

  /** The commitments this header is checked against. */
  function Due(c: Setup, s: Sync, h: Header): seq<bool> {
    if AllNow(c, s, h) then [] else Bits(c, s.bufferLastHeight + 1, h)
  }

  /** One more header in REDOWNLOAD. */
  function Stored(c: Setup, s: Sync, h: Header): Sync
    requires Due(c, s, h) <= s.commitments
  {
    s.(redownloadChainWork := s.redownloadChainWork + ProofOf(c, h), processAll := AllNow(c, s, h),
       commitments := s.commitments[|Due(c, s, h)|..], redownloaded := s.redownloaded + [Compress(h)],
       bufferLastHeight := s.bufferLastHeight + 1, bufferLastHash := HashOf(c, h),
       received := s.received + [h], checked := if AllNow(c, s, h) then s.checked else s.checked + 1)
  }

  lemma StoredWithWork(c: Setup, s: Sync, h: Header)
    requires Ok(c, s) && s.downloadState == REDOWNLOAD && Follows(c, s.received, h) && AllNow(c, s, h)
    ensures Work(c, s.received + [h]) >= c.minimumWork && Ok(c, Stored(c, s, h))
  {
    ProgressStep(c, s.received, s.bufferLastHeight, s.bufferLastHash, s.redownloadChainWork, s.processAll, h);
    BufferStep(c, s.received, s.released, s.redownloaded, s.bufferFirstPrevHash, h);
    Snoc(c, s.received, h);
    UncheckedStep(c, s.presynced, s.received, s.checked, s.commitments, s.processAll, h);
    assert s.commitments[0..] == s.commitments;
  }

  lemma DueIffMatches(c: Setup, s: Sync, h: Header)
    requires Ok(c, s) && s.downloadState == REDOWNLOAD && !AllNow(c, s, h)
    ensures Work(c, s.received + [h]) < c.minimumWork
    ensures Due(c, s, h) <= s.commitments <==> Commits(c, s.received + [h]) <= Commits(c, s.presynced)
  {
    Snoc(c, s.received, h);
    CheckedStep(c, s.presynced, s.received, s.checked, s.commitments, h);
  }

  lemma StoredWithCheck(c: Setup, s: Sync, h: Header)
    requires Ok(c, s) && s.downloadState == REDOWNLOAD && Follows(c, s.received, h) && !AllNow(c, s, h) && Due(c, s, h) <= s.commitments
    ensures Ok(c, Stored(c, s, h))
  {
    var s' := Stored(c, s, h);
    assert IsProgress(c, s'.received, s'.bufferLastHeight, s'.bufferLastHash, s'.redownloadChainWork, s'.processAll) by {
      ProgressStep(c, s.received, s.bufferLastHeight, s.bufferLastHash, s.redownloadChainWork, s.processAll, h);
    }
    assert IsBuffer(c, s'.received, s'.released, s'.redownloaded, s'.bufferFirstPrevHash) by {
      BufferStep(c, s.received, s.released, s.redownloaded, s.bufferFirstPrevHash, h);
    }
    assert IsChecked(c, s'.presynced, s'.received, s'.checked, s'.commitments, false) by {
      CheckedStep(c, s.presynced, s.received, s.checked, s.commitments, h);
    }
    assert |s.received| == s.checked && !s.processAll;
  }

  /** A header is accepted exactly when there is enough work or its commitments match. */
  lemma StoredOk(c: Setup, s: Sync, h: Header)
    requires Ok(c, s) && s.downloadState == REDOWNLOAD && Follows(c, s.received, h)
    ensures Due(c, s, h) <= s.commitments <==> Work(c, s.received + [h]) >= c.minimumWork || Commits(c, s.received + [h]) <= Commits(c, s.presynced)
    ensures Due(c, s, h) <= s.commitments ==> Ok(c, Stored(c, s, h))
  {
    if AllNow(c, s, h) {
      StoredWithWork(c, s, h);
    } else {
      DueIffMatches(c, s, h);
      if Due(c, s, h) <= s.commitments {
        StoredWithCheck(c, s, h);
      }
    }
  }

  /** The difficulty a redownloaded header is compared with. */
  function PreviousBits(c: Setup, s: Sync): nat {
    if s.redownloaded != [] then s.redownloaded[|s.redownloaded| - 1].nBits else c.start.nBits
  }

  /** It is that of the header received last. */
  lemma TruePredecessor(c: Setup, s: Sync)
    requires Ok(c, s) && s.downloadState == REDOWNLOAD
    ensures PreviousBits(c, s) == Tip(c, s.received).nBits
  {
  }

  /** The next header follows the ones received and matches the commitment that is due, if any. */
  ghost predicate Accepts(c: Setup, s: Sync, h: Header) {
    Follows(c, s.received, h) && Due(c, s, h) <= s.commitments
  }

  lemma FollowsWhen(c: Setup, s: Sync, h: Header)
    requires Ok(c, s) && s.downloadState == REDOWNLOAD
    ensures Follows(c, s.received, h) <==> h.hashPrevBlock == s.bufferLastHash && Permits(c, s.bufferLastHeight + 1, PreviousBits(c, s), h.nBits)
  {
    TruePredecessor(c, s);
  }

  /** Release the first buffered header. */
  function PopOne(c: Setup, s: Sync): Sync
    requires s.redownloaded != []
  {
    var h := s.redownloaded[0].GetFullHeader(s.bufferFirstPrevHash);
    s.(redownloaded := s.redownloaded[1..], bufferFirstPrevHash := HashOf(c, h), released := s.released + [h])
  }

  /** The header released is, field for field, the one received. */
  lemma PopOneOk(c: Setup, s: Sync)
    requires ReleasedOk(c, s) && Redownloading(c, s) && s.redownloaded != [] && (|s.redownloaded| > REDOWNLOAD_BUFFER_SIZE || s.processAll)
    ensures ReleasedOk(c, PopOne(c, s)) && Redownloading(c, PopOne(c, s))
    ensures |s.released| < |s.received| && PopOne(c, s).released == s.released + [s.received[|s.released|]]
  {
    var n := |s.released|;
    var h := s.received[n];
    assert s.received[n..][0] == h && LinkOk(c, s.received, n);
    assert Before(c, s.received, n) == Tip(c, s.released);
    FullHeader(h);
    assert s.received[n..][1..] == s.received[n + 1..];
    assert CompressAll(s.received[n..])[1..] == CompressAll(s.received[n + 1..]);
  }

  function Finalized(s: Sync): Sync {
    s.(commitments := [], lastHeaderReceived := Header(0, 0, 0, 0, 0, 0), redownloaded := [], bufferLastHash := 0,
       bufferFirstPrevHash := 0, processAll := false, currentHeight := 0, downloadState := FINAL)
  }

  /** Nothing was accepted or released. */
  ghost predicate SameHistory(s: Sync, s': Sync) {
    && s'.presynced == s.presynced && s'.received == s.received && s'.released == s.released
    && s'.checked == s.checked && s'.downloadState == s.downloadState
  }

  lemma FinalizedOk(c: Setup, s: Sync, s': Sync)
    requires ReleasedOk(c, s) && SameHistory(s, s')
    ensures Ok(c, Finalized(s'))
  {
  }

  /** Consecutive headers of a message connect. */
  ghost predicate Continuous(c: Setup, hs: seq<Header>) {
    forall i: nat {:trigger Connects(c, hs, i)} :: 0 < i < |hs| ==> Connects(c, hs, i)
  }

  ghost predicate Connects(c: Setup, hs: seq<Header>, i: nat)
    requires 0 < i < |hs|
  {
    hs[i].hashPrevBlock == HashOf(c, hs[i - 1])
  }

  lemma FirstMustConnect(c: Setup, before: seq<Header>, headers: seq<Header>)
    requires headers != [] && headers[0].hashPrevBlock != HashOf(c, Tip(c, before))
    ensures !Chain(c, before + headers)
  {
    var hs := before + headers;
    assert !LinkOk(c, hs, |before|);
  }

  lemma ContinuousAt(c: Setup, before: seq<Header>, headers: seq<Header>, i: nat)
    requires Continuous(c, headers) && i < |headers| && headers[0].hashPrevBlock == HashOf(c, Tip(c, before))
    ensures headers[i].hashPrevBlock == HashOf(c, Tip(c, before + headers[..i]))
    ensures before + headers[..i + 1] == before + headers[..i] + [headers[i]] && before + headers[..i + 1] <= before + headers
  {
    if i > 0 {
      assert Connects(c, headers, i);
    } else {
      assert before + headers[..0] == before;
    }
  }

  /** The message can be accepted in PRESYNC. */
  ghost predicate PresyncAccepts(c: Setup, presynced: seq<Header>) {
    Chain(c, presynced) && |Commits(c, presynced)| <= c.maxCommitments
  }

  // ---------------------------------------------------------------- the object

  class HeadersSync {
    const c: Setup
    /** The fields, changed one after the other. */
    var s: Sync

    ghost predicate Valid()
      reads this
    {
      Ok(c, s)
    }

    constructor (setup: Setup)
      ensures c == setup && s == Start(setup) && Valid()
    {
      c := setup;
      s := Start(setup);
    }

    /** Clear everything and mark this object as no longer usable. */
    method Finalize()
      modifies this
      ensures s == Finalized(old(s))
    {
      s := s.(commitments := [], lastHeaderReceived := Header(0, 0, 0, 0, 0, 0));
      s := s.(redownloaded := [], bufferLastHash := 0, bufferFirstPrevHash := 0);
      s := s.(processAll := false, currentHeight := 0, downloadState := FINAL);
    }

    /** In PRESYNC, process one header. */
    method ValidateAndProcessSingleHeader(current: Header) returns (ok: bool)
      modifies this
      ensures ok <==>
        && Permits(c, old(s).currentHeight + 1, old(s).lastHeaderReceived.nBits, current.nBits)
        && (IsCommitted(c, old(s).currentHeight + 1) ==> |old(s).commitments| + 1 <= c.maxCommitments)
      ensures ok ==> s == Noted(c, old(s), current)
      ensures !ok ==> SameHistory(old(s), s)
    {
      var nextHeight := s.currentHeight + 1;
      if !Permits(c, nextHeight, s.lastHeaderReceived.nBits, current.nBits) {
        return false;
      }
      if IsCommitted(c, nextHeight) {
        s := s.(commitments := s.commitments + [BitOf(c, current)]);
        if |s.commitments| > c.maxCommitments {
          return false;
        }
      }
      s := s.(currentChainWork := s.currentChainWork + ProofOf(c, current));
      s := s.(lastHeaderReceived := current);
      s := s.(currentHeight := nextHeight);
      s := s.(presynced := s.presynced + [current]);
      return true;
    }

    /** In PRESYNC, process a message; switch to REDOWNLOAD once there is enough work. */
    method ValidateAndStoreHeadersCommitments(headers: seq<Header>) returns (ok: bool)
      requires Valid() && s.downloadState == PRESYNC && headers != [] && Continuous(c, headers)
      modifies this
      ensures ok <==> PresyncAccepts(c, old(s).presynced + headers)
      ensures ok ==> Valid() && s.presynced == old(s).presynced + headers && s.received == s.released == []
      ensures ok ==> s.downloadState == if Work(c, s.presynced) >= c.minimumWork then REDOWNLOAD else PRESYNC
      ensures !ok ==> ReleasedOk(c, s) && s.received == s.released == []
    {
      ghost var before := s.presynced;
      if headers[0].hashPrevBlock != HashOf(c, s.lastHeaderReceived) {
        FirstMustConnect(c, before, headers);
        return false;
      }
      for i := 0 to |headers|
        invariant Valid() && s.downloadState == PRESYNC && s.presynced == before + headers[..i]
      {
        ContinuousAt(c, before, headers, i);
        NotedWhen(c, s, headers[i]);
        ok := ValidateAndProcessSingleHeader(headers[i]);
        if !ok {
          PrefixGrows(c, before + headers[..i + 1], before + headers);
          return false;
        }
      }
      assert headers[..|headers|] == headers;
      if s.currentChainWork >= c.minimumWork {
        SwitchedOk(c, s);
        SwitchToRedownload();
      }
      return true;
    }

    method SwitchToRedownload()
      modifies this
      ensures s == Switched(c, old(s))
    {
      s := s.(redownloaded := []);
      s := s.(bufferLastHeight := c.startHeight);
      s := s.(bufferFirstPrevHash := HashOf(c, c.start));
      s := s.(bufferLastHash := HashOf(c, c.start));
      s := s.(redownloadChainWork := c.startWork);
      s := s.(downloadState := REDOWNLOAD);
    }

    /** In REDOWNLOAD, check a header against its commitment and buffer it. */
    method ValidateAndStoreRedownloadedHeader(header: Header) returns (ok: bool)
      requires Valid() && s.downloadState == REDOWNLOAD
      modifies this
      ensures ok <==> Accepts(c, old(s), header)
      ensures ok ==> s == Stored(c, old(s), header) && Valid()
      ensures !ok ==> SameHistory(old(s), s)
    {
      FollowsWhen(c, s, header);
      if header.hashPrevBlock != s.bufferLastHash {
        return false;
      }
      var previousBits := PreviousBits(c, s);
      if !Permits(c, s.bufferLastHeight + 1, previousBits, header.nBits) {
        return false;
      }
      StoredOk(c, s, header);
      ok := CheckAndStore(header);
    }

    /** Track the work, check the commitment if one is due, and store the header. */
    method CheckAndStore(header: Header) returns (ok: bool)
      modifies this
      ensures ok <==> Due(c, old(s), header) <= old(s).commitments
      ensures ok ==> s == Stored(c, old(s), header)
      ensures !ok ==> SameHistory(old(s), s)
    {
      var nextHeight := s.bufferLastHeight + 1;
      s := s.(redownloadChainWork := s.redownloadChainWork + ProofOf(c, header));
      if s.redownloadChainWork >= c.minimumWork {
        s := s.(processAll := true);
      }
      if !s.processAll && IsCommitted(c, nextHeight) {
        if |s.commitments| == 0 {
          return false;
        }
        var commitment := BitOf(c, header);
        var expected := s.commitments[0];
        s := s.(commitments := s.commitments[1..]);
        if commitment != expected {
          return false;
        }
      }
      s := s.(redownloaded := s.redownloaded + [Compress(header)]);
      s := s.(bufferLastHeight := nextHeight);
      s := s.(bufferLastHash := HashOf(c, header));
      s := s.(received := s.received + [header]);
      s := s.(checked := if s.processAll then s.checked else s.checked + 1);
      return true;
    }

    /** Take everything out of the buffer that may be released. */
    method PopHeadersReadyForAcceptance() returns (ret: seq<Header>)
      requires ReleasedOk(c, s) && Redownloading(c, s)
      modifies this
      ensures ReleasedOk(c, s) && Redownloading(c, s) && OnlyReleased(old(s), s) && s.released == old(s).released + ret
      ensures s.processAll ==> s.redownloaded == []
      ensures s.redownloaded == [] ==> s.processAll || old(s).redownloaded == []
      ensures |s.redownloaded| == if s.processAll then 0 else Min(|old(s).redownloaded|, REDOWNLOAD_BUFFER_SIZE)
      ensures s.received != [] ==> |s.released| == ReleasedBy(c, s.received, |old(s).released|)
      ensures s.received != [] ==> (s.redownloaded == [] && s.processAll <==> Work(c, s.received) >= c.minimumWork)
    {
      ret := [];
      ghost var before := s;
      assert s.released + [] == s.released;
      while |s.redownloaded| > REDOWNLOAD_BUFFER_SIZE || (|s.redownloaded| > 0 && s.processAll)
        invariant Popped(c, before, s, ret)
        decreases |s.redownloaded|
      {
        PoppedStep(c, before, s, ret);
        var h := PopFront();
        ret := ret + [h];
      }
      ReleasedCount(c, before, s);
    }

    /** Take the first header out of the buffer. */
    method PopFront() returns (h: Header)
      requires s.redownloaded != []
      modifies this
      ensures h == old(s).redownloaded[0].GetFullHeader(old(s).bufferFirstPrevHash) && s == PopOne(c, old(s))
    {
      h := s.redownloaded[0].GetFullHeader(s.bufferFirstPrevHash);
      s := s.(redownloaded := s.redownloaded[1..], released := s.released + [h]);
      s := s.(bufferFirstPrevHash := HashOf(c, h));
    }

    /** The loop over a message in REDOWNLOAD. */
    method StoreMessage(headers: seq<Header>) returns (ok: bool)
      requires Valid() && s.downloadState == REDOWNLOAD
      modifies this
      ensures s.presynced == old(s).presynced && s.released == old(s).released && ReleasedOk(c, s)
      ensures ok ==> Valid() && s.downloadState == REDOWNLOAD && s.received == old(s).received + headers
      ensures Honest(c, s.presynced, old(s).received + headers) ==> ok
      ensures ok <==> Chain(c, old(s).received + headers) && Matches(c, s.presynced, old(s).received + headers)
    {
      ghost var before := s;
      for i := 0 to |headers|
        invariant Storing(c, before, s, headers, i)
      {
        ok := StoreNext(before, headers, i);
        if !ok {
          return false;
        }
      }
      assert headers[..|headers|] == headers;
      OkMatches(c, s);
      return true;
    }

    method StoreNext(ghost before: Sync, headers: seq<Header>, i: nat) returns (ok: bool)
      requires i < |headers| && Storing(c, before, s, headers, i)
      modifies this
      ensures ok ==> Storing(c, before, s, headers, i + 1)
      ensures s.presynced == before.presynced && s.released == before.released && ReleasedOk(c, s)
      ensures !ok ==> !Honest(c, s.presynced, before.received + headers)
      ensures !ok ==> !(Chain(c, before.received + headers) && Matches(c, s.presynced, before.received + headers))
    {
      StoringNext(c, before, s, headers, i);
      MatchesNext(c, s, before.received + headers, headers[i]);
      ok := ValidateAndStoreRedownloadedHeader(headers[i]);
    }

    /** Process the next message from the peer. */
    method ProcessNextHeaders(headers: seq<Header>, full: bool) returns (r: ProcessingResult)
      requires Valid() && (s.downloadState == PRESYNC ==> Continuous(c, headers))
      modifies this
      ensures Valid() && s.released == old(s).released + r.headers
      ensures headers == [] || old(s).downloadState == FINAL ==> s == old(s) && !r.success && !r.requestMore
      ensures headers != [] && old(s).downloadState == PRESYNC ==> PresyncStep(c, old(s), headers, full, s, r)
      ensures headers != [] && old(s).downloadState == REDOWNLOAD ==> RedownloadStep(c, old(s), headers, full, s, r)
    {
      r := ProcessingResult([], false, false);
      if headers == [] || s.downloadState == FINAL {
        return;
      }
      if s.downloadState == PRESYNC {
        r := PresyncMessage(headers, full);
      } else {
        r := RedownloadMessage(headers, full);
      }
    }

    method PresyncMessage(headers: seq<Header>, full: bool) returns (r: ProcessingResult)
      requires Valid() && s.downloadState == PRESYNC && headers != [] && Continuous(c, headers)
      modifies this
      ensures Valid() && s.released == old(s).released + r.headers && PresyncStep(c, old(s), headers, full, s, r)
    {
      var success := ValidateAndStoreHeadersCommitments(headers);
      var requestMore := success && (full || s.downloadState == REDOWNLOAD);
      r := ProcessingResult([], success, requestMore);
      if !(r.success && r.requestMore) {
        FinalizedOk(c, s, s);
        Finalize();
      }
    }

    method RedownloadMessage(headers: seq<Header>, full: bool) returns (r: ProcessingResult)
      requires Valid() && s.downloadState == REDOWNLOAD && headers != []
      modifies this
      ensures Valid() && s.released == old(s).released + r.headers && RedownloadStep(c, old(s), headers, full, s, r)
    {
      var ret, requestMore := [], false;
      var success := StoreMessage(headers);
      if success {
        ret := PopHeadersReadyForAcceptance();
        if s.redownloaded == [] && s.processAll {
          requestMore := false;
        } else if full {
          requestMore := true;
        }
      }
      r := ProcessingResult(ret, success, requestMore);
      if !(r.success && r.requestMore) {
        FinalizedOk(c, s, s);
        Finalize();
      }
    }
  }

  /** Only the buffer and what has been released may differ. */
  ghost predicate OnlyReleased(s: Sync, s': Sync) {
    s' == s.(redownloaded := s'.redownloaded, bufferFirstPrevHash := s'.bufferFirstPrevHash, released := s'.released)
  }

  /** The headers in ret have been popped. */
  ghost predicate Popped(c: Setup, before: Sync, s: Sync, ret: seq<Header>) {
    && ReleasedOk(c, s) && Redownloading(c, s) && OnlyReleased(before, s) && s.released == before.released + ret
    && (s.redownloaded == [] ==> s.processAll || before.redownloaded == [])
    && (s.processAll || |s.redownloaded| >= Min(|before.redownloaded|, REDOWNLOAD_BUFFER_SIZE))
  }

  /** Exactly what exceeds the buffer has been released, or everything. */
  lemma ReleasedCount(c: Setup, before: Sync, s: Sync)
    requires Redownloading(c, before) && Redownloading(c, s) && s.received == before.received
    requires |s.redownloaded| == if s.processAll then 0 else Min(|before.redownloaded|, REDOWNLOAD_BUFFER_SIZE)
    ensures s.received != [] ==> |s.released| == ReleasedBy(c, s.received, |before.released|)
  {
    assert |before.received[|before.released|..]| == |before.redownloaded|;
    assert |s.received[|s.released|..]| == |s.redownloaded|;
  }

  lemma PoppedStep(c: Setup, before: Sync, s: Sync, ret: seq<Header>)
    requires Popped(c, before, s, ret) && s.redownloaded != [] && (|s.redownloaded| > REDOWNLOAD_BUFFER_SIZE || s.processAll)
    ensures Popped(c, before, PopOne(c, s), ret + [s.redownloaded[0].GetFullHeader(s.bufferFirstPrevHash)])
  {
    PopOneOk(c, s);
    var h := s.redownloaded[0].GetFullHeader(s.bufferFirstPrevHash);
    assert before.released + (ret + [h]) == s.released + [h];
  }

  /** One chain contains the other, and the redownloaded one is valid. */
  ghost predicate Honest(c: Setup, presynced: seq<Header>, received: seq<Header>) {
    Chain(c, received) && (received <= presynced || presynced <= received)
  }

  lemma HonestPrefix(c: Setup, presynced: seq<Header>, a: seq<Header>, b: seq<Header>)
    requires Honest(c, presynced, b) && a <= b
    ensures Honest(c, presynced, a)
  {
    PrefixGrows(c, a, b);
    if presynced <= b {
      if |a| <= |presynced| {
        assert a == b[..|a|] && presynced[..|a|] == b[..|a|];
        assert a <= presynced;
      } else {
        assert presynced == a[..|presynced|];
      }
    }
  }

  /** A header of the chain served before is always accepted. */
  lemma HonestStep(c: Setup, s: Sync, h: Header)
    requires Ok(c, s) && s.downloadState == REDOWNLOAD && Honest(c, s.presynced, s.received + [h])
    ensures Accepts(c, s, h)
  {
    SnocChain(c, s.received, h);
    if s.received + [h] <= s.presynced {
      PrefixGrows(c, s.received + [h], s.presynced);
    } else {
      PrefixGrows(c, s.presynced, s.received + [h]);
    }
    StoredOk(c, s, h);
  }

  ghost predicate MatchesAt(c: Setup, presynced: seq<Header>, hs: seq<Header>, n: nat)
    requires n <= |hs|
  {
    Work(c, hs[..n]) >= c.minimumWork || Commits(c, hs[..n]) <= Commits(c, presynced)
  }

  /** Every part from the start has enough work or the commitments that were stored. */
  ghost predicate Matches(c: Setup, presynced: seq<Header>, hs: seq<Header>) {
    forall n: nat {:trigger MatchesAt(c, presynced, hs, n)} :: 0 < n <= |hs| ==> MatchesAt(c, presynced, hs, n)
  }

  lemma OkMatches(c: Setup, s: Sync)
    requires Ok(c, s) && s.downloadState == REDOWNLOAD
    ensures Matches(c, s.presynced, s.received)
  {
    forall n: nat | 0 < n <= |s.received| ensures MatchesAt(c, s.presynced, s.received, n) {
      if n <= s.checked {
        assert s.received[..n] <= s.received[..s.checked];
        PrefixGrows(c, s.received[..n], s.received[..s.checked]);
      } else {
        assert s.received[..s.checked + 1] <= s.received[..n];
        PrefixGrows(c, s.received[..s.checked + 1], s.received[..n]);
      }
    }
  }

  /** A header that is refused spoils every message it is part of. */
  lemma MatchesNext(c: Setup, s: Sync, hs: seq<Header>, h: Header)
    requires Ok(c, s) && s.downloadState == REDOWNLOAD && s.received + [h] <= hs
    ensures Chain(c, hs) && Matches(c, s.presynced, hs) ==> Accepts(c, s, h)
  {
    if Chain(c, hs) && Matches(c, s.presynced, hs) {
      PrefixGrows(c, s.received + [h], hs);
      SnocChain(c, s.received, h);
      assert hs[..|s.received| + 1] == s.received + [h] && MatchesAt(c, s.presynced, hs, |s.received| + 1);
      StoredOk(c, s, h);
    }
  }

  lemma HonestNext(c: Setup, s: Sync, before: seq<Header>, headers: seq<Header>, i: nat)
    requires Ok(c, s) && s.downloadState == REDOWNLOAD && i < |headers| && s.received == before + headers[..i]
    ensures Honest(c, s.presynced, before + headers) ==> Accepts(c, s, headers[i])
  {
    if Honest(c, s.presynced, before + headers) {
      assert before + headers[..i + 1] == s.received + [headers[i]];
      HonestPrefix(c, s.presynced, before + headers[..i + 1], before + headers);
      HonestStep(c, s, headers[i]);
    }
  }

  /** The first i headers of the message have been stored. */
  ghost predicate Storing(c: Setup, before: Sync, s: Sync, headers: seq<Header>, i: nat)
    requires i <= |headers|
  {
    Ok(c, s) && s.downloadState == REDOWNLOAD && s.received == before.received + headers[..i]
    && s.presynced == before.presynced && s.released == before.released
  }

  lemma StoringNext(c: Setup, before: Sync, s: Sync, headers: seq<Header>, i: nat)
    requires i < |headers| && Storing(c, before, s, headers, i)
    ensures Honest(c, s.presynced, before.received + headers) ==> Accepts(c, s, headers[i])
    ensures before.received + headers[..i + 1] == s.received + [headers[i]] && s.received + [headers[i]] <= before.received + headers
  {
    HonestNext(c, s, before.received, headers, i);
  }

  /** What a message does in PRESYNC. */
  ghost predicate PresyncStep(c: Setup, s: Sync, headers: seq<Header>, full: bool, s': Sync, r: ProcessingResult) {
    && r.headers == [] && (r.success <==> PresyncAccepts(c, s.presynced + headers))
    && (r.success ==> s'.presynced == s.presynced + headers && s'.received == [] && s'.released == [])
    && (r.requestMore <==> r.success && (full || Work(c, s.presynced + headers) >= c.minimumWork))
    && s'.downloadState == if !r.requestMore then FINAL else if Work(c, s.presynced + headers) >= c.minimumWork then REDOWNLOAD else PRESYNC
  }

  /** How many headers are released once all have been received and accepted, if n were before. */
  function ReleasedBy(c: Setup, all: seq<Header>, n: nat): nat {
    if Work(c, all) >= c.minimumWork then |all| else Max(n, |all| - REDOWNLOAD_BUFFER_SIZE)
  }

  /**
   What a message does in REDOWNLOAD: it is accepted exactly when it extends the chain and every
   prefix has enough work or the commitments of PRESYNC. Once there is enough work everything is
   released, before that whatever the buffer cannot hold.
   */
  ghost predicate RedownloadStep(c: Setup, s: Sync, headers: seq<Header>, full: bool, s': Sync, r: ProcessingResult) {
    var all := s.received + headers;
    && (r.success <==> Chain(c, all) && Matches(c, s.presynced, all))
    && (Honest(c, s.presynced, all) ==> r.success)
    && (if r.success then s'.received == all && s'.presynced == s.presynced else r.headers == [])
    && (r.success ==> s'.released <= all && |s'.released| == ReleasedBy(c, all, |s.released|))
    && (r.requestMore <==> r.success && full && Work(c, all) < c.minimumWork)
    && s'.downloadState == if r.requestMore then REDOWNLOAD else FINAL
  }

  /** When a header is accepted in PRESYNC. */
  lemma NotedWhen(c: Setup, s: Sync, h: Header)
    requires Ok(c, s) && s.downloadState == PRESYNC && h.hashPrevBlock == HashOf(c, Tip(c, s.presynced))
    ensures var ok := Permits(c, s.currentHeight + 1, s.lastHeaderReceived.nBits, h.nBits) && (IsCommitted(c, s.currentHeight + 1) ==> |s.commitments| + 1 <= c.maxCommitments);
      && (ok <==> PresyncAccepts(c, s.presynced + [h])) && (ok ==> Ok(c, Noted(c, s, h)))
  {
    Snoc(c, s.presynced, h);
    SnocChain(c, s.presynced, h);
    if Follows(c, s.presynced, h) {
      NotedOk(c, s, h);
    }
  }

  // ---------------------------------------------------------------- an honest peer

  lemma ChainContinuous(c: Setup, hs: seq<Header>, a: nat, b: nat)
    requires Chain(c, hs) && a <= b <= |hs|
    ensures Continuous(c, hs[a..b])
  {
    forall i: nat | 0 < i < b - a ensures Connects(c, hs[a..b], i) {
      assert LinkOk(c, hs, a + i);
    }
  }

  /** Where the next message ends and whether it is flagged full: only the last one may be short. */
  method NextMessage(pos: nat, length: nat) returns (end: nat, full: bool)
    requires pos < length
    ensures pos < end <= length && (end < length ==> full)
  {
    end :| pos < end <= length;
    var flag: bool := *;
    full := end < length || flag;
  }

  /** A chain worth syncing. */
  ghost predicate Worthy(c: Setup, chain: seq<Header>) {
    chain != [] && PresyncAccepts(c, chain) && Work(c, chain) >= c.minimumWork
  }

  /** The peer serves its chain a first time. */
  method ServeFirst(sync: HeadersSync, chain: seq<Header>)
    requires sync.s == Start(sync.c) && Worthy(sync.c, chain)
    modifies sync
    ensures sync.Valid() && sync.s.downloadState == REDOWNLOAD && sync.s.presynced <= chain && sync.s.received == sync.s.released == []
  {
    var pos := 0;
    while sync.s.downloadState == PRESYNC
      invariant sync.Valid() && pos <= |chain| && sync.s.presynced == chain[..pos] && sync.s.received == sync.s.released == []
      invariant sync.s.downloadState == PRESYNC ==> pos < |chain|
      invariant sync.s.downloadState != FINAL
      decreases |chain| - pos, if sync.s.downloadState == PRESYNC then 1 else 0
    {
      var end, full := NextMessage(pos, |chain|);
      ChainContinuous(sync.c, chain, pos, end);
      assert chain[..pos] + chain[pos..end] == chain[..end] && chain[..end] <= chain;
      PrefixGrows(sync.c, chain[..end], chain);
      var r := sync.ProcessNextHeaders(chain[pos..end], full);
      assert end == |chain| ==> chain[..end] == chain;
      pos := end;
    }
  }

  /** And a second time: nothing is rejected, and everything up to the message reaching the minimum work is released. */
  method ServeAgain(sync: HeadersSync, chain: seq<Header>) returns (out: seq<Header>)
    requires sync.Valid() && sync.s.downloadState == REDOWNLOAD && sync.s.presynced <= chain && sync.s.received == sync.s.released == []
    requires Worthy(sync.c, chain)
    modifies sync
    ensures sync.Valid() && sync.s.downloadState == FINAL && sync.s.released == out
    ensures out <= chain && Work(sync.c, out) >= sync.c.minimumWork
  {
    var pos := 0;
    out := [];
    ghost var presynced := sync.s.presynced;
    while sync.s.downloadState == REDOWNLOAD
      invariant sync.Valid() && pos <= |chain| && sync.s.downloadState != PRESYNC && out == sync.s.released
      invariant sync.s.downloadState == REDOWNLOAD ==> pos < |chain| && sync.s.received == chain[..pos] && sync.s.presynced == presynced
      invariant sync.s.downloadState == FINAL ==> out <= chain && Work(sync.c, out) >= sync.c.minimumWork
      decreases |chain| - pos, if sync.s.downloadState == REDOWNLOAD then 1 else 0
    {
      var end, full := NextMessage(pos, |chain|);
      ChainContinuous(sync.c, chain, pos, end);
      assert chain[..pos] + chain[pos..end] == chain[..end] && chain[..end] <= chain;
      assert end == |chain| ==> chain[..end] == chain;
      ServedHonestly(sync.c, presynced, chain, end);
      var r := sync.ProcessNextHeaders(chain[pos..end], full);
      assert r.success;
      WholePrefix(sync.s.released, chain[..end]);
      out := out + r.headers;
      pos := end;
    }
  }

  lemma WholePrefix(a: seq<Header>, b: seq<Header>)
    ensures a <= b && |a| == |b| ==> a == b
  {
  }

  lemma ServedHonestly(c: Setup, presynced: seq<Header>, chain: seq<Header>, end: nat)
    requires Chain(c, chain) && presynced <= chain && end <= |chain|
    ensures Honest(c, presynced, chain[..end])
  {
    assert chain[..end] <= chain;
    HonestPrefix(c, presynced, chain[..end], chain);
  }
}
