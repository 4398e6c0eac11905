/** The per-piece record of the piece picker and the priority it derives from it. */
module PieceTypes {

  /** The stored index of a piece we already have; such a piece is in no bucket. */
  const WE_HAVE_INDEX: nat := 0xffff_ffff

  const PRIORITY_LEVELS: nat := 8
  const PRIO_FACTOR: nat := 4

  /** The peer count lives in a 16-bit field and wraps like one. */
  const PEER_COUNT_RANGE: nat := 0x1_0000
  type PeerCount = n: nat | n < PEER_COUNT_RANGE

  /** The user's priority of a piece, a 3-bit field: 0 is filtered, 7 ignores availability. */
  type PiecePriority = p: nat | p < PRIORITY_LEVELS

  datatype PiecePos = PiecePos(
    peerCount: PeerCount,
    downloading: bool,
    full: bool,
    piecePriority: PiecePriority,
    index: nat
  ) {
    predicate Have() {
      index == WE_HAVE_INDEX
    }

    predicate Filtered() {
      piecePriority == 0
    }

    /** A piece we neither have nor filtered: the kind the cursors delimit. */
    predicate Wanted() {
      !Have() && !Filtered()
    }

    /** The bucket this piece belongs to, or -1 when it must not be listed. */
    function Priority(seeds: nat): (priority: int)
      ensures priority >= -1
    {
      if Filtered() || Have() || peerCount + seeds == 0 then
        -1
      else if piecePriority == PRIORITY_LEVELS - 1 then
        if downloading then 0 else 1
      else
        var availability := if piecePriority >= PRIORITY_LEVELS / 2 then peerCount / 2 else peerCount;
        var p := if piecePriority >= PRIORITY_LEVELS / 2
                 then piecePriority - (PRIORITY_LEVELS - 2) / 2 else piecePriority;
        if downloading then availability * PRIO_FACTOR
        else availability * PRIO_FACTOR + PRIORITY_LEVELS / 2 - p
    }

    /** Every field except the back-pointer agrees, and so does the have flag it encodes. */
    predicate SameButIndex(other: PiecePos) {
      && this == other.(index := index)
      && Have() == other.Have()
    }
  }

  /** Two piece maps that differ in back-pointers only. */
  ghost predicate MovedOnly(before: seq<PiecePos>, after: seq<PiecePos>) {
    && |before| == |after|
    && forall i | 0 <= i < |before| :: after[i].SameButIndex(before[i])
  }

  /** No piece with a priority is one we already have. */
  ghost predicate AllMissing(pieceMap: seq<PiecePos>, prios: seq<int>) {
    && |prios| == |pieceMap|
    && forall i | 0 <= i < |pieceMap| && prios[i] >= 0 :: !pieceMap[i].Have()
  }

  /** The priority of every piece. */
  ghost function Priorities(pieceMap: seq<PiecePos>, seeds: nat): (prios: seq<int>)
    ensures |prios| == |pieceMap|
    ensures forall i | 0 <= i < |prios| :: prios[i] == pieceMap[i].Priority(seeds)
    ensures AllMissing(pieceMap, prios)
  {
    seq(|pieceMap|, i requires 0 <= i < |pieceMap| => pieceMap[i].Priority(seeds))
  }

  /** Bucket 0 modulo the factor holds exactly the partially downloaded pieces. */
  lemma DownloadingMeansWholeFactor(p: PiecePos, seeds: nat)
    ensures p.Priority(seeds) == -1 || (p.Priority(seeds) >= 0 && p.downloading == (p.Priority(seeds) % PRIO_FACTOR == 0))
  {
    if p.piecePriority != PRIORITY_LEVELS - 1 {
      var availability := if p.piecePriority >= PRIORITY_LEVELS / 2 then p.peerCount / 2 else p.peerCount;
      assert (availability * PRIO_FACTOR) % PRIO_FACTOR == 0;
    }
  }

  /** A piece is in a bucket exactly if we want it, lack it, and somebody has it. */
  lemma ListedWhen(p: PiecePos, seeds: nat)
    ensures p.Priority(seeds) >= 0 <==> p.piecePriority > 0 && p.index != WE_HAVE_INDEX && (p.peerCount > 0 || seeds > 0)
  {
  }

  /** Of pieces with a user priority below 4, those with fewer peers come first; of those with as many, first the ones that
      are being downloaded, and then those of a higher user priority. */
  lemma OrdinaryOrder(a: PiecePos, b: PiecePos, seeds: nat)
    requires a.Priority(seeds) >= 0 && b.Priority(seeds) >= 0 && a.piecePriority < 4 && b.piecePriority < 4
    ensures a.Priority(seeds) < b.Priority(seeds) <==>
              || a.peerCount < b.peerCount
              || (a.peerCount == b.peerCount && a.downloading && !b.downloading)
              || (a.peerCount == b.peerCount && !a.downloading && !b.downloading && a.piecePriority > b.piecePriority)
  {
    assert PRIORITY_LEVELS == 8 && PRIO_FACTOR == 4;
  }

  /** A piece of user priority 4 to 6 counts as one of 1 to 3 with half as many peers. */
  lemma HalvedOrder(p: PiecePos, seeds: nat)
    requires p.Priority(seeds) >= 0 && 4 <= p.piecePriority < 7
    ensures p.Priority(seeds) == p.(piecePriority := p.piecePriority - 3, peerCount := p.peerCount / 2).Priority(seeds + 1)
  {
  }

  /** A piece of user priority 7 counts as one of 3 that no peer has, whoever has it. */
  lemma TopOrder(p: PiecePos, seeds: nat)
    requires p.Priority(seeds) >= 0 && p.piecePriority == 7
    ensures p.Priority(seeds) == p.(piecePriority := 3, peerCount := 0).Priority(seeds + 1)
  {
  }

  /** Seeds decide whether a piece is listed, not where. */
  lemma SeedsOnlyList(p: PiecePos, seeds: nat, more: nat)
    requires p.Priority(seeds) >= 0 && p.Priority(more) >= 0
    ensures p.Priority(seeds) == p.Priority(more)
  {
  }

  /** Alike in all else, a piece has fewer peers than another, so that the difference counts. */
  predicate Rarer(a: PiecePos, b: PiecePos) {
    && a.downloading == b.downloading && a.piecePriority == b.piecePriority
    && if a.piecePriority < 4 then a.peerCount < b.peerCount
       else a.piecePriority < 7 && a.peerCount / 2 < b.peerCount / 2
  }

  /** The rarer one of two pieces is in an earlier bucket, and one with as many peers or fewer in no later one. */
  lemma RarerFirst(a: PiecePos, b: PiecePos, seeds: nat)
    requires a.Priority(seeds) >= 0 && b.Priority(seeds) >= 0
    requires a.downloading == b.downloading && a.piecePriority == b.piecePriority
    ensures a.Priority(seeds) < b.Priority(seeds) <==> Rarer(a, b)
    ensures a.peerCount <= b.peerCount ==> a.Priority(seeds) <= b.Priority(seeds)
    ensures Rarer(a, b) ==> a.Priority(seeds) / PRIO_FACTOR < b.Priority(seeds) / PRIO_FACTOR
    ensures a.Priority(seeds) % PRIO_FACTOR == b.Priority(seeds) % PRIO_FACTOR
  {
    var x, rest := Parts(a, seeds);
    var y, _ := Parts(b, seeds);
    hide PiecePos.Priority;
    assert a.Priority(seeds) / PRIO_FACTOR == x && b.Priority(seeds) / PRIO_FACTOR == y;
  }

  /** The peers that count, and the place among pieces with as many. */
  lemma Parts(p: PiecePos, seeds: nat) returns (peers: nat, rest: nat)
    requires p.Priority(seeds) >= 0
    ensures peers == if p.piecePriority < 4 then p.peerCount else if p.piecePriority < 7 then p.peerCount / 2 else 0
    ensures rest == if p.downloading then 0 else if p.piecePriority == 7 then 1 else 3 - (p.piecePriority - 1) % 3
    ensures p.Priority(seeds) == 4 * peers + rest && rest < PRIO_FACTOR == 4
  {
    peers := if p.piecePriority < 4 then p.peerCount else if p.piecePriority < 7 then p.peerCount / 2 else 0;
    rest := if p.downloading then 0 else if p.piecePriority == 7 then 1 else 3 - (p.piecePriority - 1) % 3;
  }

  /** With as many peers and the same user priority, a piece that is being downloaded is ahead. */
  lemma DownloadingFirst(a: PiecePos, b: PiecePos, seeds: nat)
    requires a.Priority(seeds) >= 0 && b.Priority(seeds) >= 0 && a.downloading && !b.downloading
    requires a.peerCount == b.peerCount && a.piecePriority == b.piecePriority
    ensures a.Priority(seeds) < b.Priority(seeds)
  {
  }

  /** User priority 7 is never behind another piece that is being downloaded or not, like it, whatever the peers; and it is
      ahead unless no peer counts for the other, and that is being downloaded or of user priority 3 or 6. */
  lemma TopFirst(a: PiecePos, b: PiecePos, seeds: nat)
    requires a.Priority(seeds) >= 0 && b.Priority(seeds) >= 0 && a.downloading == b.downloading
    requires a.piecePriority == 7 && b.piecePriority < 7
    ensures a.Priority(seeds) <= b.Priority(seeds)
    ensures a.Priority(seeds) < b.Priority(seeds) <==>
              || (if b.piecePriority < 4 then b.peerCount > 0 else b.peerCount > 1)
              || (!b.downloading && b.piecePriority != 3 && b.piecePriority != 6)
  {
  }

  /** Of two pieces with as many peers that nobody downloads, the one of the higher user priority is ahead if two peers have
      them. One peer makes no difference between 7 and 6; and with none 4, 5 and 6 are as good as 1, 2 and 3, and 7 as
      good as 3, so the higher one may even be behind. */
  lemma HigherFirst(a: PiecePos, b: PiecePos, seeds: nat)
    requires a.Priority(seeds) >= 0 && b.Priority(seeds) >= 0 && !a.downloading && !b.downloading
    requires a.peerCount == b.peerCount && a.piecePriority > b.piecePriority
    ensures a.peerCount >= 2 ==> a.Priority(seeds) < b.Priority(seeds)
    ensures a.peerCount == 1 ==> (a.Priority(seeds) < b.Priority(seeds) <==> !(a.piecePriority == 7 && b.piecePriority == 6))
    ensures a.peerCount == 0 ==>
              var x, y := if a.piecePriority == 7 then 3 else (a.piecePriority - 1) % 3 + 1, (b.piecePriority - 1) % 3 + 1;
              (a.Priority(seeds) < b.Priority(seeds) <==> x > y) && (a.Priority(seeds) > b.Priority(seeds) <==> x < y)
  {
  }

  lemma MovingKeepsPriorities(before: seq<PiecePos>, after: seq<PiecePos>, seeds: nat)
    requires MovedOnly(before, after)
    ensures Priorities(before, seeds) == Priorities(after, seeds)
  {
    forall i | 0 <= i < |before|
      ensures after[i].Priority(seeds) == before[i].Priority(seeds)
    {
      assert after[i].SameButIndex(before[i]);
    }
  }

  lemma MovedTwice(a: seq<PiecePos>, b: seq<PiecePos>, c: seq<PiecePos>)
    requires MovedOnly(a, b) && MovedOnly(b, c)
    ensures MovedOnly(a, c)
  {
    forall i | 0 <= i < |a|
      ensures c[i].SameButIndex(a[i])
    {
      assert b[i].SameButIndex(a[i]) && c[i].SameButIndex(b[i]);
    }
  }

  lemma MovedNone(a: seq<PiecePos>)
    ensures MovedOnly(a, a)
  {
  }
}
