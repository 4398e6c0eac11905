/** The piece picker: which pieces are wanted, in which order, and which blocks of them are on their way. */
module PiecePicker {
  import opened PieceTypes
  import opened Buckets
  import opened CountingSort
  import opened D = Downloads
  import opened FullFlags
  import C = Cursors

  /** A change of one record that keeps its downloading, filtered and have status, plus back-pointer moves,
      leaves the download queue, the cursors and the totals right. */
  lemma RestKept(a: seq<PiecePos>, b: seq<PiecePos>, i: nat, p: PiecePos,
                 downloads: seq<DownloadingPiece>, slabs: seq<seq<BlockInfo>>, blocksPerPiece: nat, blocksInLast: nat,
                 cursor: int, reverse: int)
    requires i < |a| && MovedOnly(a[i := p], b)
    requires p.Have() == a[i].Have() && p.Filtered() == a[i].Filtered() && p.downloading == a[i].downloading
    requires QueueOk(downloads, slabs, a, blocksPerPiece, blocksInLast)
    requires C.CursorsOk(cursor, reverse, a)
    ensures QueueOk(downloads, slabs, b, blocksPerPiece, blocksInLast)
    ensures C.CursorsOk(cursor, reverse, b) && C.Total(a) == C.Total(b)
  {
    hide QueueOk, C.CursorsOk;
    forall j | 0 <= j < |a|
      ensures b[j].Have() == a[j].Have() && b[j].Filtered() == a[j].Filtered() && b[j].downloading == a[j].downloading
    {
      assert b[j].SameButIndex(a[i := p][j]);
    }
    DownloadingIsMissing(downloads, slabs, a, blocksPerPiece, blocksInLast);
    QueueKept(downloads, slabs, a, b, blocksPerPiece, blocksInLast);
    C.SameKind(a, b, cursor, reverse);
  }

  /** Flag changes that no priority, cursor or total depends on. */
  lemma FlagsKept(pieces: seq<int>, bounds: seq<int>, a: seq<PiecePos>, seeds: nat, i: nat, p: PiecePos, cursor: int, reverse: int)
    requires i < |a| && p == a[i].(full := p.full)
    requires C.CursorsOk(cursor, reverse, a)
    ensures Clean(pieces, bounds, a, Priorities(a, seeds)) ==>
              Clean(pieces, bounds, a[i := p], Priorities(a[i := p], seeds))
    ensures C.CursorsOk(cursor, reverse, a[i := p]) && C.Total(a) == C.Total(a[i := p])
  {
    hide Clean, C.CursorsOk;
    C.SameKind(a, a[i := p], cursor, reverse);
    assert p.Priority(seeds) == a[i].Priority(seeds);
    if Clean(pieces, bounds, a, Priorities(a, seeds)) {
      ChangeOne(pieces, bounds, a, seeds, i, p);
      assert Priorities(a[i := p], seeds)[i := a[i].Priority(seeds)] == Priorities(a[i := p], seeds);
    }
  }

  /** Setting or clearing the downloading flag moves no cursor and changes no total. */
  lemma DownloadingKept(a: seq<PiecePos>, b: seq<PiecePos>, i: nat, p: PiecePos, cursor: int, reverse: int)
    requires i < |a| && p == a[i].(downloading := p.downloading) && MovedOnly(a[i := p], b)
    requires C.CursorsOk(cursor, reverse, a)
    ensures C.CursorsOk(cursor, reverse, b) && C.Total(a) == C.Total(b)
  {
    forall j | 0 <= j < |a|
      ensures b[j].Have() == a[j].Have() && b[j].Filtered() == a[j].Filtered()
    {
      assert b[j].SameButIndex(a[i := p][j]);
    }
    C.SameKind(a, b, cursor, reverse);
  }

  /** The piece map after a mark: downloading set, full refreshed, back-pointers moved. */
  lemma MarkedMap(a: seq<PiecePos>, b: seq<PiecePos>, c: seq<PiecePos>, i: nat)
    requires i < |a| && MovedOnly(a[i := a[i].(downloading := true)], b)
    requires |c| == |b| && c == b[i := b[i].(full := c[i].full)]
    ensures |c| == |a| && MovedOnly(a[i := a[i].(downloading := true, full := c[i].full)], c)
  {
    forall j | 0 <= j < |a|
      ensures c[j].SameButIndex(a[i := a[i].(downloading := true, full := c[i].full)][j])
    {
      assert b[j].SameButIndex(a[i := a[i].(downloading := true)][j]);
    }
  }

  /** The piece map after a block was freed, with or without its piece leaving the list. */
  lemma FreedMap(a: seq<PiecePos>, b: seq<PiecePos>, c: seq<PiecePos>, i: nat)
    requires i < |a| && |b| == |a| && b == a[i := a[i].(full := b[i].full)]
    requires MovedOnly(b, c) || MovedOnly(b[i := b[i].(downloading := false)], c) || c == b
    ensures |c| == |a|
    ensures c == b ==> MovedOnly(a[i := a[i].(downloading := a[i].downloading, full := c[i].full)], c)
    ensures MovedOnly(b[i := b[i].(downloading := false)], c) ==>
              MovedOnly(a[i := a[i].(downloading := false, full := c[i].full)], c)
    ensures MovedOnly(b[i := b[i].(downloading := false)], c) ==> c[i].full == b[i].full
  {
    if MovedOnly(b[i := b[i].(downloading := false)], c) {
      forall j | 0 <= j < |a|
        ensures c[j].SameButIndex(a[i := a[i].(downloading := false, full := c[i].full)][j])
      {
        assert c[j].SameButIndex(b[i := b[i].(downloading := false)][j]);
      }
    }
  }

  lemma QueueMoved(downloads: seq<DownloadingPiece>, slabs: seq<seq<BlockInfo>>, a: seq<PiecePos>, b: seq<PiecePos>,
                   blocksPerPiece: nat, blocksInLast: nat)
    requires QueueOk(downloads, slabs, a, blocksPerPiece, blocksInLast) && MovedOnly(a, b)
    ensures QueueOk(downloads, slabs, b, blocksPerPiece, blocksInLast)
  {
    hide QueueOk;
    DownloadingIsMissing(downloads, slabs, a, blocksPerPiece, blocksInLast);
    forall j | 0 <= j < |a|
      ensures a[j].downloading == b[j].downloading && a[j].Have() == b[j].Have()
    {
      assert b[j].SameButIndex(a[j]);
    }
    QueueKept(downloads, slabs, a, b, blocksPerPiece, blocksInLast);
  }

  /** Moving back-pointers keeps cursors and totals. */
  lemma MovedKind(a: seq<PiecePos>, b: seq<PiecePos>, cursor: int, reverse: int)
    requires MovedOnly(a, b) && C.CursorsOk(cursor, reverse, a)
    ensures C.CursorsOk(cursor, reverse, b) && C.Total(a) == C.Total(b)
  {
    forall j | 0 <= j < |a|
      ensures b[j].Have() == a[j].Have() && b[j].Filtered() == a[j].Filtered()
    {
      assert b[j].SameButIndex(a[j]);
    }
    C.SameKind(a, b, cursor, reverse);
  }

  /** The list just after a piece was marked as had is clean but for that piece's entry. */
  lemma HadList(pieces: seq<int>, bounds: seq<int>, a: seq<PiecePos>, b: seq<PiecePos>, seeds: nat, i: nat)
    requires i < |a| < WE_HAVE_INDEX && !a[i].Have() && b == a[i := a[i].(downloading := false, index := WE_HAVE_INDEX)]
    requires Clean(pieces, bounds, a, Priorities(a, seeds))
    ensures |pieces| < WE_HAVE_INDEX && a[i].Priority(seeds) < |bounds| && b[i].Priority(seeds) == -1
    ensures Clean(pieces, bounds, b[i := b[i].(index := a[i].index)], Priorities(b, seeds)[i := a[i].Priority(seeds)])
    ensures a[i].Priority(seeds) == -1 ==> Clean(pieces, bounds, b, Priorities(b, seeds))
  {
    hide Clean;
    NoLongerThanMap(pieces, bounds, a, Priorities(a, seeds));
    PriorityHasBucket(pieces, bounds, a, Priorities(a, seeds), i);
    var q := a[i].(downloading := false);
    ChangeOne(pieces, bounds, a, seeds, i, q);
    assert b[i := b[i].(index := a[i].index)] == a[i := q];
    assert Priorities(b, seeds)[i := a[i].Priority(seeds)] == Priorities(a[i := q], seeds)[i := a[i].Priority(seeds)];
    if a[i].Priority(seeds) == -1 {
      ChangeOne(pieces, bounds, a, seeds, i, b[i]);
      assert Priorities(b, seeds)[i := -1] == Priorities(b, seeds);
    }
  }

  /** Every record up to `total` keeps its priority and full flag only; new ones have priority 1. */
  ghost predicate Reset(before: seq<PiecePos>, after: seq<PiecePos>, total: nat) {
    && |after| == total
    && forall i | 0 <= i < total ::
         after[i] == if i < |before| then before[i].(peerCount := 0, downloading := false, index := 0)
                     else PiecePos(0, false, false, 1, 0)
  }

  lemma ResetFacts(before: seq<PiecePos>, after: seq<PiecePos>, total: nat)
    requires Reset(before, after, total)
    ensures |after| == total
    ensures forall i | 0 <= i < total :: !after[i].Have() && !after[i].downloading
    ensures forall i | 0 <= i < total :: after[i].Filtered() == (i < |before| && before[i].Filtered())
  {
  }

  /** Whether there are two seeds or more makes no difference to any priority. */
  lemma SeedsMatterAtZero(pieceMap: seq<PiecePos>, s: nat, s': nat)
    requires s > 0 && s' > 0
    ensures Priorities(pieceMap, s) == Priorities(pieceMap, s')
  {
    forall i | 0 <= i < |pieceMap|
      ensures pieceMap[i].Priority(s) == pieceMap[i].Priority(s')
    {
    }
  }

  /** Changing peer counts only leaves everything but the buckets right. */
  lemma PeersOnly(a: seq<PiecePos>, b: seq<PiecePos>,
                  downloads: seq<DownloadingPiece>, slabs: seq<seq<BlockInfo>>, blocksPerPiece: nat, blocksInLast: nat,
                  cursor: int, reverse: int)
    requires |a| == |b| && forall i | 0 <= i < |a| :: b[i] == a[i].(peerCount := b[i].peerCount)
    requires QueueOk(downloads, slabs, a, blocksPerPiece, blocksInLast)
    requires C.CursorsOk(cursor, reverse, a)
    ensures QueueOk(downloads, slabs, b, blocksPerPiece, blocksInLast)
    ensures C.CursorsOk(cursor, reverse, b) && C.Total(a) == C.Total(b)
    ensures FullOk(downloads, slabs, a, blocksPerPiece, blocksInLast) ==> FullOk(downloads, slabs, b, blocksPerPiece, blocksInLast)
  {
    hide QueueOk, C.CursorsOk;
    DownloadingIsMissing(downloads, slabs, a, blocksPerPiece, blocksInLast);
    QueueKept(downloads, slabs, a, b, blocksPerPiece, blocksInLast);
    C.SameKind(a, b, cursor, reverse);
    if FullOk(downloads, slabs, a, blocksPerPiece, blocksInLast) {
      FullMoved(downloads, slabs, a, b, blocksPerPiece, blocksInLast);
    }
  }

  lemma HadRecord(p: PiecePos)
    ensures p.(downloading := false).Have() == p.Have()
    ensures p.Have() && !p.downloading ==> p == p.(downloading := false, index := WE_HAVE_INDEX)
  {
  }

  /** What changes when a piece we had is missing again. */
  lemma LostKinds(a: seq<PiecePos>, i: nat, after: seq<PiecePos>)
    requires i < |a| && a[i].Have() && after == a[i := a[i].(index := 0)]
    ensures |after| == |a| && forall j | 0 <= j < |a| && j != i :: a[j].Wanted() == after[j].Wanted()
    ensures after[i].Wanted() <==> !a[i].Filtered()
    ensures a[i].Filtered() ==> forall j | 0 <= j < |a| :: a[j].Wanted() == after[j].Wanted()
    ensures MovedOnly(after, after) && WE_HAVE_INDEX > 0
    ensures forall seeds: nat :: a[i].Priority(seeds) == -1
  {
    MovedNone(after);
  }

  lemma LostTally(a: seq<PiecePos>, i: nat, after: seq<PiecePos>)
    requires i < |a| && a[i].Have() && after == a[i := a[i].(index := 0)]
    ensures C.Total(after) == C.Tally(C.Total(a).have - 1, C.Total(a).filtered + (if a[i].Filtered() then 1 else 0),
                                      C.Total(a).haveFiltered - (if a[i].Filtered() then 1 else 0))
  {
    hide C.Total;
    C.TotalUpdate(a, i, after[i]);
  }

  lemma LostMoved(a: seq<PiecePos>, i: nat, after: seq<PiecePos>, b: seq<PiecePos>,
                  downloads: seq<DownloadingPiece>, slabs: seq<seq<BlockInfo>>, blocksPerPiece: nat, blocksInLast: nat,
                  cursor: int, reverse: int)
    requires i < |a| && a[i].Have() && after == a[i := a[i].(index := 0)] && MovedOnly(after, b)
    requires QueueOk(downloads, slabs, a, blocksPerPiece, blocksInLast) && C.CursorsOk(cursor, reverse, after)
    ensures QueueOk(downloads, slabs, b, blocksPerPiece, blocksInLast) && C.CursorsOk(cursor, reverse, b)
    ensures C.Total(b) == C.Tally(C.Total(a).have - 1, C.Total(a).filtered + (if a[i].Filtered() then 1 else 0),
                                  C.Total(a).haveFiltered - (if a[i].Filtered() then 1 else 0))
    ensures FullOk(downloads, slabs, a, blocksPerPiece, blocksInLast) ==> FullOk(downloads, slabs, b, blocksPerPiece, blocksInLast)
  {
    DownloadingIsMissing(downloads, slabs, a, blocksPerPiece, blocksInLast);
    hide QueueOk, C.CursorsOk, C.Total, FullOk, MovedOnly;
    LostTally(a, i, after);
    MovedKind(after, b, cursor, reverse);
    QueueKept(downloads, slabs, a, after, blocksPerPiece, blocksInLast);
    QueueMoved(downloads, slabs, after, b, blocksPerPiece, blocksInLast);
    FullKept(downloads, slabs, a, b, blocksPerPiece, blocksInLast, i, a[i].(index := 0));
  }

  class Picker {
    var seeds: nat
    var pieces: seq<int>
    var bounds: seq<int>
    var pieceMap: seq<PiecePos>
    var dirty: bool
    var downloads: seq<DownloadingPiece>
    var slabs: seq<seq<BlockInfo>>
    var blocksPerPiece: nat
    var blocksInLast: nat
    var numFiltered: int
    var numHaveFiltered: int
    var numHave: int
    var cursor: int
    var reverseCursor: int

    /** The list is never without a bucket, and unless a rebuild is pending it is clean. */
    ghost predicate BucketsOk()
      reads this
    {
      && 0 < |bounds| && |pieceMap| < WE_HAVE_INDEX
      && (!dirty ==> Clean(pieces, bounds, pieceMap, Priorities(pieceMap, seeds)))
    }

    /** A piece marked full has every block active, or none requested. */
    ghost predicate FullValid()
      reads this
    {
      FullOk(downloads, slabs, pieceMap, blocksPerPiece, blocksInLast)
    }

    ghost predicate QueueValid()
      reads this
    {
      QueueOk(downloads, slabs, pieceMap, blocksPerPiece, blocksInLast)
    }

    ghost predicate CountsOk()
      reads this
    {
      && C.CursorsOk(cursor, reverseCursor, pieceMap)
      && C.Total(pieceMap) == C.Tally(numHave, numFiltered, numHaveFiltered)
    }

    ghost predicate Valid()
      reads this
    {
      BucketsOk() && QueueValid() && CountsOk()
    }

    lemma Parts()
      ensures BucketsOk() <==>
                0 < |bounds| && |pieceMap| < WE_HAVE_INDEX && (!dirty ==> Clean(pieces, bounds, pieceMap, Priorities(pieceMap, seeds)))
      ensures QueueValid() <==> QueueOk(downloads, slabs, pieceMap, blocksPerPiece, blocksInLast)
      ensures FullValid() <==> FullOk(downloads, slabs, pieceMap, blocksPerPiece, blocksInLast)
      ensures Valid() <==> BucketsOk() && QueueValid() && CountsOk()
      ensures CountsOk() <==>
                && C.CursorsOk(cursor, reverseCursor, pieceMap)
                && C.Total(pieceMap) == C.Tally(numHave, numFiltered, numHaveFiltered)
      ensures forall i | 0 <= i < |pieceMap| :: QueueValid() ==> QueueValidBut(i)
      ensures forall i :: ViewOf(i) == View(downloads, slabs, i)
    {
      hide Clean, C.Total, C.CursorsOk, QueueBut, FullOk, View;
      forall i | 0 <= i < |pieceMap| && QueueValid()
        ensures QueueValidBut(i)
      {
        QueueAt(downloads, slabs, pieceMap, blocksPerPiece, blocksInLast, i);
      }
    }

    /** Puts a piece into a slot and points it there. */
    method Place(piece: int, k: nat, ghost start: seq<PiecePos>, ghost prios: seq<int>)
      requires 0 <= piece < |pieceMap| && k < |pieces| && k < WE_HAVE_INDEX
      requires AllMissing(pieceMap, prios) && prios[piece] >= 0 && MovedOnly(start, pieceMap)
      modifies `pieces, `pieceMap
      ensures pieces == old(pieces)[k := piece]
      ensures pieceMap == old(pieceMap)[piece := old(pieceMap)[piece].(index := k)]
      ensures AllMissing(pieceMap, prios) && MovedOnly(start, pieceMap)
    {
      pieces := pieces[k := piece];
      pieceMap := pieceMap[piece := pieceMap[piece].(index := k)];
      MovedTwice(start, old(pieceMap), pieceMap);
    }

    /** Moves boundaries up by one until a bucket is found that does not end at slot k. */
    method GrowBuckets(first: nat, k: int) returns (end: int, next: nat)
      requires first < |bounds|
      modifies `bounds
      ensures first < next <= |bounds| == |old(bounds)|
      ensures Raised(old(bounds), bounds, first, k, end, next)
    {
      next := first;
      end := bounds[next];
      bounds := bounds[next := end + 1];
      next := next + 1;
      while end == k && next < |bounds|
        invariant first < next <= |bounds| == |old(bounds)|
        invariant bounds == Shifted(old(bounds), first, next, 1)
        invariant end == old(bounds)[next - 1]
        invariant forall p | first <= p < next - 1 :: old(bounds)[p] == k
      {
        end := bounds[next];
        bounds := bounds[next := end + 1];
        next := next + 1;
      }
    }

    /** Stands for random(): any value in the range, inclusive. */
    static method AnyIndex(lo: int, hi: int) returns (k: int)
      requires lo <= hi
      ensures lo <= k <= hi
    {
      assert lo <= lo <= hi;
      k :| lo <= k <= hi;
    }

    /** Makes room for buckets up to p; the new ones are empty and end where the list ends. */
    method ExtendBuckets(p: nat)
      requires Boundaries(bounds, |pieces|)
      modifies `bounds
      ensures Boundaries(bounds, |pieces|) && p < |bounds|
      ensures old(bounds) <= bounds && |bounds| == if p < |old(bounds)| then |old(bounds)| else p + 1
      ensures forall q, k :: InBucket(old(bounds), q, k) <==> InBucket(bounds, q, k)
    {
      if |bounds| <= p {
        var count := |pieces|;
        bounds := bounds + seq(p + 1 - |bounds|, _ => count);
      }
    }

    /** Lists a piece that just became wanted. */
    method Add(index: nat)
      requires !dirty && index < |pieceMap| < WE_HAVE_INDEX && |pieces| < |pieceMap|
      requires pieceMap[index].Priority(seeds) >= 0
      requires Clean(pieces, bounds, pieceMap, Priorities(pieceMap, seeds)[index := -1])
      modifies `pieces, `bounds, `pieceMap
      ensures MovedOnly(old(pieceMap), pieceMap)
      ensures Clean(pieces, bounds, pieceMap, Priorities(pieceMap, seeds))
    {
      CleanBoundaries(pieces, bounds, pieceMap, Priorities(pieceMap, seeds)[index := -1]);
      hide *;
      ghost var prios := Priorities(pieceMap, seeds);
      var p: nat := pieceMap[index].Priority(seeds);
      ExtendBuckets(p);
      var start := if p == 0 then 0 else bounds[p - 1];
      var slot := AnyIndex(start, bounds[p]);
      InsertStart(pieces, old(bounds), bounds, pieceMap, prios, index, slot);
      pieces := pieces + [-1];
      Displace(index, p, slot, prios);
      MovingKeepsPriorities(old(pieceMap), pieceMap, seeds);
    }

    /** Puts a piece into a slot and moves what it displaces to the end of its bucket, bucket by bucket. */
    method Displace(index: nat, priority: nat, target: int, ghost prios: seq<int>)
      requires 0 <= target < |pieces| && priority < |bounds| && index < |prios| && prios[index] >= 0
      requires Inserting(pieces, bounds, pieceMap, target, index, priority, pieces, bounds, priority, prios)
      requires AllMissing(pieceMap, prios) && |pieceMap| == |prios| && |pieces| < WE_HAVE_INDEX
      modifies `pieces, `bounds, `pieceMap
      ensures MovedOnly(old(pieceMap), pieceMap)
      ensures Clean(pieces, bounds, pieceMap, prios)
    {
      hide *;
      ghost var was, b := pieces, bounds;
      MovedNone(pieceMap);
      var held: int, slot, p := index, target, priority;
      while true
        invariant MovedOnly(old(pieceMap), pieceMap) && AllMissing(pieceMap, prios) && |pieceMap| == |prios|
        invariant 0 <= held < |pieceMap| == |prios| && prios[held] >= 0
        invariant 0 <= slot < |pieces| == |was| && p < |b| == |bounds|
        invariant Inserting(pieces, bounds, pieceMap, slot, held, p, was, b, priority, prios)
        decreases |b| - p
      {
        ghost var pieces0, bounds0, map0, slot0, held0, p0 := pieces, bounds, pieceMap, slot, held, p;
        var temp := pieces[slot];
        Place(held, slot, old(pieceMap), prios);
        held := temp;
        temp, p := GrowBuckets(p, slot);
        slot := temp;
        InsertStep(pieces0, bounds0, map0, slot0, held0, p0, was, b, priority, prios, bounds, slot, p);
        if p >= |bounds| { break; }
      }
      if held != -1 {
        Place(held, slot, old(pieceMap), prios);
      }
    }

    /** Moves boundaries down by one until a bucket is found whose last slot is not k. */
    method ShrinkBuckets(first: nat, k: int) returns (last: int, next: nat)
      requires first < |bounds|
      modifies `bounds
      ensures first < next <= |bounds| == |old(bounds)|
      ensures Lowered(old(bounds), bounds, first, k, last, next)
    {
      next := first;
      last := bounds[next] - 1;
      bounds := bounds[next := last];
      next := next + 1;
      while k == last && next < |bounds|
        invariant first < next <= |bounds| == |old(bounds)|
        invariant bounds == Shifted(old(bounds), first, next, -1)
        invariant last == old(bounds)[next - 1] - 1
        invariant forall p | first <= p < next - 1 :: old(bounds)[p] - 1 == k
      {
        last := bounds[next] - 1;
        bounds := bounds[next := last];
        next := next + 1;
      }
    }

    /** Unlists the piece at slot `elem` of bucket `priority`, which has just lost its priority. */
    method Remove(priority: nat, elem: nat, ghost gone: nat)
      requires !dirty && gone < |pieceMap| && |pieces| < WE_HAVE_INDEX && priority < |bounds|
      requires pieceMap[gone].Priority(seeds) == -1
      requires Clean(pieces, bounds, pieceMap[gone := pieceMap[gone].(index := elem)],
                     Priorities(pieceMap, seeds)[gone := priority])
      modifies `pieces, `bounds, `pieceMap
      ensures MovedOnly(old(pieceMap), pieceMap)
      ensures Clean(pieces, bounds, pieceMap, Priorities(pieceMap, seeds))
    {
      ghost var prios := Priorities(pieceMap, seeds);
      RemoveStart(pieces, bounds, pieceMap, prios, priority, elem, gone, pieceMap[gone := pieceMap[gone].(index := elem)]);
      CloseGap(priority, elem, gone, prios);
      MovingKeepsPriorities(old(pieceMap), pieceMap, seeds);
    }

    /** Fills a hole with the last piece of its bucket, that piece's hole with the last of the next, and so on. */
    method CloseGap(first: nat, elem: nat, ghost gone: nat, ghost prios: seq<int>)
      requires elem < |pieces| && first < |bounds|
      requires Removing(pieces, bounds, pieceMap, elem, first, pieces, bounds, first, prios, gone)
      requires AllMissing(pieceMap, prios) && |pieceMap| == |prios| && |pieces| < WE_HAVE_INDEX
      modifies `pieces, `bounds, `pieceMap
      ensures MovedOnly(old(pieceMap), pieceMap)
      ensures Clean(pieces, bounds, pieceMap, prios)
    {
      hide *;
      ghost var was, b := pieces, bounds;
      MovedNone(pieceMap);
      var hole: int, priority := elem, first;
      while true
        invariant MovedOnly(old(pieceMap), pieceMap) && AllMissing(pieceMap, prios) && |pieceMap| == |prios|
        invariant 0 <= hole < |pieces| == |was| && |pieceMap| == |prios| && priority < |b| == |bounds|
        invariant Removing(pieces, bounds, pieceMap, hole, priority, was, b, first, prios, gone)
        decreases |b| - priority
      {
        ghost var bounds0, map0, p0 := bounds, pieceMap, priority;
        var last;
        last, priority := ShrinkBuckets(priority, hole);
        if hole == last {
          RemoveEnd(pieces, bounds0, pieceMap, hole, p0, was, b, first, prios, gone, bounds, last, priority);
          break;
        }
        RemoveStep(pieces, bounds0, pieceMap, hole, p0, was, b, first, prios, gone, bounds, last, priority);
        var piece := pieces[last];
        Place(piece, hole, old(pieceMap), prios);
        hole := last;
        if priority == |bounds| { break; }
      }
      pieces := pieces[..|pieces| - 1];
    }

    /** Moves the piece at slot `elem`, whose priority was `priority`, to the bucket of its priority now. */
    method Update(priority: nat, elem: nat, ghost moving: nat)
      requires !dirty && moving < |pieceMap| && |pieces| < WE_HAVE_INDEX && priority < |bounds|
      requires pieceMap[moving].index == elem
      requires Clean(pieces, bounds, pieceMap, Priorities(pieceMap, seeds)[moving := priority])
      modifies `pieces, `bounds, `pieceMap
      ensures MovedOnly(old(pieceMap), pieceMap)
      ensures Clean(pieces, bounds, pieceMap, Priorities(pieceMap, seeds))
    {
      ghost var prios := Priorities(pieceMap, seeds);
      assert Listed(pieces, pieceMap, moving);
      hide Clean;
      var index := pieces[elem];
      var newPriority := pieceMap[index].Priority(seeds);
      if newPriority == priority {
        assert prios[moving := priority] == prios;
        return;
      }
      if newPriority == -1 {
        assert pieceMap[moving := pieceMap[moving].(index := elem)] == pieceMap;
        Remove(priority, elem, moving);
        return;
      }
      CleanBoundaries(pieces, bounds, pieceMap, prios[moving := priority]);
      ExtendBuckets(newPriority);
      UpdateStart(pieces, old(bounds), bounds, pieceMap, prios, priority, elem, moving);
      var slot;
      if priority > newPriority {
        slot := Promote(index, priority, newPriority, elem, prios);
      } else {
        slot := Demote(index, priority, newPriority, elem, prios);
      }
      MovingKeepsPriorities(old(pieceMap), pieceMap, seeds);
      Shuffle(newPriority, slot);
    }

    /** Walks the hole down to a lower bucket, moving the first piece of each bucket on the way. */
    method Promote(index: nat, from: nat, dest: nat, elem: nat, ghost prios: seq<int>) returns (hole: nat)
      requires dest < from && Promoting(pieces, bounds, pieceMap, elem, from, pieces, bounds, prios, from, dest, index)
      requires elem < |pieces| && pieces[elem] == index && index < |prios| && prios[index] >= 0
      requires AllMissing(pieceMap, prios) && |pieceMap| == |prios| && |pieces| < WE_HAVE_INDEX
      modifies `pieces, `bounds, `pieceMap
      ensures MovedOnly(old(pieceMap), pieceMap) && |pieces| == old(|pieces|)
      ensures Clean(pieces, bounds, pieceMap, prios) && InBucket(bounds, dest, hole)
    {
      hide *;
      ghost var was, b := pieces, bounds;
      MovedNone(pieceMap);
      var priority := from;
      var temp: int := index;
      hole := elem;
      while true
        invariant dest < priority <= from && hole < |pieces| == |was|
        invariant MovedOnly(old(pieceMap), pieceMap) && AllMissing(pieceMap, prios) && |pieceMap| == |prios|
        invariant Promoting(pieces, bounds, pieceMap, hole, priority, was, b, prios, from, dest, index)
        invariant temp == pieces[hole]
        decreases priority
      {
        priority := priority - 1;
        PromoteTarget(pieces, bounds, pieceMap, hole, priority, was, b, prios, from, dest, index);
        var slot := bounds[priority];
        if temp != pieces[slot] {
          PromoteMove(pieces, bounds, pieceMap, hole, priority, was, b, prios, from, dest, index, slot);
          bounds := bounds[priority := slot + 1];
          temp := pieces[slot];
          Place(temp, hole, old(pieceMap), prios);
        } else {
          PromoteSkip(pieces, bounds, pieceMap, hole, priority, was, b, prios, from, dest, index);
          bounds := bounds[priority := slot + 1];
        }
        hole := slot;
        if priority == dest { break; }
      }
      PromoteEnd(pieces, bounds, pieceMap, hole, was, b, prios, from, dest, index);
      Place(index, hole, old(pieceMap), prios);
    }

    /** Walks the hole up to a higher bucket, moving the last piece of each bucket on the way. */
    method Demote(index: nat, from: nat, dest: nat, elem: nat, ghost prios: seq<int>) returns (hole: nat)
      requires from < dest && Demoting(pieces, bounds, pieceMap, elem, from, pieces, bounds, prios, from, dest, index)
      requires elem < |pieces| && pieces[elem] == index && index < |prios| && prios[index] >= 0
      requires AllMissing(pieceMap, prios) && |pieceMap| == |prios| && |pieces| < WE_HAVE_INDEX
      modifies `pieces, `bounds, `pieceMap
      ensures MovedOnly(old(pieceMap), pieceMap) && |pieces| == old(|pieces|)
      ensures Clean(pieces, bounds, pieceMap, prios) && InBucket(bounds, dest, hole)
    {
      hide *;
      ghost var was, b := pieces, bounds;
      MovedNone(pieceMap);
      var priority := from;
      var temp: int := index;
      hole := elem;
      while true
        invariant from <= priority < dest && hole < |pieces| == |was|
        invariant MovedOnly(old(pieceMap), pieceMap) && AllMissing(pieceMap, prios) && |pieceMap| == |prios|
        invariant Demoting(pieces, bounds, pieceMap, hole, priority, was, b, prios, from, dest, index)
        invariant temp == pieces[hole]
        decreases dest - priority
      {
        DemoteTarget(pieces, bounds, pieceMap, hole, priority, was, b, prios, from, dest, index);
        var slot := bounds[priority] - 1;
        if temp != pieces[slot] {
          DemoteMove(pieces, bounds, pieceMap, hole, priority, was, b, prios, from, dest, index, slot);
          bounds := bounds[priority := slot];
          temp := pieces[slot];
          Place(temp, hole, old(pieceMap), prios);
        } else {
          DemoteSkip(pieces, bounds, pieceMap, hole, priority, was, b, prios, from, dest, index);
          bounds := bounds[priority := slot];
        }
        hole := slot;
        priority := priority + 1;
        if priority == dest { break; }
      }
      DemoteEnd(pieces, bounds, pieceMap, hole, was, b, prios, from, dest, index);
      Place(index, hole, old(pieceMap), prios);
    }

    /** Exchanges the piece at slot `elem` with any piece of its own bucket. */
    method Shuffle(priority: nat, elem: nat)
      requires !dirty && |pieces| < WE_HAVE_INDEX && InBucket(bounds, priority, elem)
      requires Clean(pieces, bounds, pieceMap, Priorities(pieceMap, seeds))
      modifies `pieces, `pieceMap
      ensures MovedOnly(old(pieceMap), pieceMap)
      ensures Clean(pieces, bounds, pieceMap, Priorities(pieceMap, seeds))
    {
      CleanBoundaries(pieces, bounds, pieceMap, Priorities(pieceMap, seeds));
      hide Clean;
      var start := if priority == 0 then 0 else bounds[priority - 1];
      var other := AnyIndex(start, bounds[priority] - 1);
      assert InBucket(bounds, priority, other);
      if other == elem { return; }
      ghost var prios := Priorities(pieceMap, seeds);
      SwapKeepsClean(pieces, bounds, pieceMap, prios, priority, other, elem);
      var p1, p2 := pieces[other], pieces[elem];
      pieceMap := pieceMap[p1 := pieceMap[p1].(index := elem)][p2 := pieceMap[p2].(index := other)];
      pieces := pieces[other := p2][elem := p1];
      MovingKeepsPriorities(old(pieceMap), pieceMap, seeds);
    }

    /** Rebuilds the list from the piece map by counting sort and shuffles every bucket. */
    method UpdatePieces()
      requires dirty && 0 < |bounds| && |pieceMap| < WE_HAVE_INDEX
      modifies `pieces, `bounds, `pieceMap, `dirty
      ensures !dirty && MovedOnly(old(pieceMap), pieceMap)
      ensures Clean(pieces, bounds, pieceMap, Priorities(pieceMap, seeds))
      ensures |bounds| >= |old(bounds)|
    {
      hide Clean, MovedOnly, Packed, Counted, Summed;
      ghost var prios := Priorities(pieceMap, seeds);
      CountPieces(prios);
      MovingKeepsPriorities(old(pieceMap), pieceMap, seeds);
      var total := SumBoundaries(prios);
      DistributePieces(total, prios);
      ShuffleBuckets(prios);
      SetBackPointers(old(pieceMap), prios);
      dirty := false;
      MovingKeepsPriorities(old(pieceMap), pieceMap, seeds);
    }

    /** First pass: boundaries become bucket sizes, back-pointers become ranks inside the bucket. */
    method CountPieces(ghost prios: seq<int>)
      requires 0 < |bounds| && |pieceMap| < WE_HAVE_INDEX && prios == Priorities(pieceMap, seeds)
      modifies `bounds, `pieceMap
      ensures |bounds| >= |old(bounds)| && MovedOnly(old(pieceMap), pieceMap)
      ensures Counted(bounds, pieceMap, prios, |prios|)
    {
      hide *;
      MovedNone(pieceMap);
      CountedStart(|bounds|, pieceMap, prios);
      bounds := seq(|bounds|, _ => 0);
      for i := 0 to |pieceMap|
        invariant |pieceMap| == |prios| && |bounds| >= |old(bounds)|
        invariant MovedOnly(old(pieceMap), pieceMap)
        invariant prios == Priorities(pieceMap, seeds)
        invariant Counted(bounds, pieceMap, prios, i)
      {
        var p := pieceMap[i].Priority(seeds);
        if p == -1 {
          CountedStep(bounds, pieceMap, prios, i);
        } else {
          if p >= |bounds| {
            CountedGrows(bounds, p + 1 - |bounds|, pieceMap, prios, i);
            bounds := bounds + seq(p + 1 - |bounds|, _ => 0);
          }
          CountedStep(bounds, pieceMap, prios, i);
          SetRank(i, bounds[p]);
          bounds := bounds[p := bounds[p] + 1];
        }
      }
    }

    method SetRank(i: nat, rank: nat)
      requires i < |pieceMap| && rank < WE_HAVE_INDEX && pieceMap[i].Priority(seeds) >= 0
      modifies `pieceMap
      ensures pieceMap == old(pieceMap)[i := old(pieceMap)[i].(index := rank)]
      ensures Priorities(pieceMap, seeds) == Priorities(old(pieceMap), seeds)
      ensures forall m :: MovedOnly(m, old(pieceMap)) ==> MovedOnly(m, pieceMap)
    {
      pieceMap := pieceMap[i := pieceMap[i].(index := rank)];
      MovingKeepsPriorities(old(pieceMap), pieceMap, seeds);
      forall m | MovedOnly(m, old(pieceMap))
        ensures MovedOnly(m, pieceMap)
      {
        MovedTwice(m, old(pieceMap), pieceMap);
      }
    }

    /** Second pass: bucket sizes become boundaries. */
    method SumBoundaries(ghost prios: seq<int>) returns (index: int)
      requires 0 < |bounds| && Counted(bounds, pieceMap, prios, |prios|)
      modifies `bounds
      ensures |bounds| == |old(bounds)| && 0 <= index == bounds[|bounds| - 1]
      ensures Summed(bounds, prios) && Ranked(pieceMap, prios)
    {
      index := 0;
      for p := 0 to |bounds|
        invariant |bounds| == |old(bounds)|
        invariant index == UpTo(prios, p - 1)
        invariant forall q | 0 <= q < p :: bounds[q] == UpTo(prios, q)
        invariant forall q | p <= q < |bounds| :: bounds[q] == Count(prios, q, |prios|)
      {
        bounds := bounds[p := bounds[p] + index];
        index := bounds[p];
      }
    }

    /** Third pass: every wanted piece goes to its slot. */
    method DistributePieces(total: int, ghost prios: seq<int>)
      requires prios == Priorities(pieceMap, seeds)
      requires Summed(bounds, prios) && total == bounds[|bounds| - 1]
      requires Ranked(pieceMap, prios) && 0 <= total && |pieceMap| == |prios| && 0 < |bounds|
      modifies `pieces
      ensures Packed(pieces, bounds, prios)
    {
      hide *;
      CumulativeBoundaries(bounds, prios);
      if total <= |pieces| {
        pieces := pieces[..total];
      } else {
        pieces := pieces + seq(total - |pieces|, _ => 0);
      }
      DistributedStart(pieces, prios);
      for index := 0 to |pieceMap|
        invariant |pieces| == total
        invariant Distributed(pieces, prios, index)
      {
        var p := pieceMap[index].Priority(seeds);
        DistributedStep(pieces, bounds, pieceMap, seeds, prios, index);
        if p != -1 {
          var slot := (if p == 0 then 0 else bounds[p - 1]) + pieceMap[index].index;
          pieces := pieces[slot := index];
        }
      }
      DistributedIsPacked(pieces, bounds, prios);
    }

    /** Fourth pass: every bucket is put in random order. */
    method ShuffleBuckets(ghost prios: seq<int>)
      requires Packed(pieces, bounds, prios)
      modifies `pieces
      ensures Packed(pieces, bounds, prios)
    {
      var start := 0;
      for p := 0 to |bounds|
        invariant Packed(pieces, bounds, prios)
        invariant start == if p == 0 then 0 else bounds[p - 1]
      {
        if start != bounds[p] {
          RandomShuffle(start, bounds[p], p, prios);
          start := bounds[p];
        }
      }
    }

    /** Stands for std::random_shuffle on the slots lo..hi-1: each is exchanged with any earlier one or itself. */
    method RandomShuffle(lo: int, hi: int, ghost p: nat, ghost prios: seq<int>)
      requires Packed(pieces, bounds, prios) && p < |bounds|
      requires 0 <= lo < hi == bounds[p] && lo == if p == 0 then 0 else bounds[p - 1]
      modifies `pieces
      ensures Packed(pieces, bounds, prios)
    {
      hide Packed;
      for k := lo + 1 to hi
        invariant Packed(pieces, bounds, prios)
      {
        var j := AnyIndex(lo, k);
        assert InBucket(bounds, p, j) && InBucket(bounds, p, k);
        SwapKeepsPacked(pieces, bounds, prios, p, j, k);
        pieces := pieces[j := pieces[k]][k := pieces[j]];
      }
    }

    /** Last pass: back-pointers. */
    method SetBackPointers(ghost start: seq<PiecePos>, ghost prios: seq<int>)
      requires Packed(pieces, bounds, prios) && prios == Priorities(pieceMap, seeds)
      requires MovedOnly(start, pieceMap) && |pieceMap| < WE_HAVE_INDEX
      modifies `pieceMap
      ensures MovedOnly(start, pieceMap)
      ensures Clean(pieces, bounds, pieceMap, prios)
    {
      NoMoreThanPieces(pieces, bounds, prios);
      for index := 0 to |pieces|
        invariant |pieceMap| == |prios| && MovedOnly(start, pieceMap)
        invariant AllMissing(pieceMap, prios)
        invariant forall k | 0 <= k < index :: pieceMap[pieces[k]].index == k
      {
        ghost var before := pieceMap;
        assert prios[pieces[index]] >= 0;
        pieceMap := pieceMap[pieces[index] := pieceMap[pieces[index]].(index := index)];
        MovedTwice(start, before, pieceMap);
      }
      PackedIsClean(pieces, bounds, pieceMap, prios);
    }

    /** Brings the list up to date after the priority of one piece went from `previous` to what it is now. */
    method Relist(index: nat, previous: int)
      requires !dirty && 0 < |bounds| && index < |pieceMap| < WE_HAVE_INDEX && previous >= -1
      requires Clean(pieces, bounds, pieceMap, Priorities(pieceMap, seeds)[index := previous])
      modifies `pieces, `bounds, `pieceMap
      ensures MovedOnly(old(pieceMap), pieceMap) && BucketsOk()
    {
      hide Clean;
      ghost var prios := Priorities(pieceMap, seeds);
      MovedNone(pieceMap);
      PriorityHasBucket(pieces, bounds, pieceMap, prios[index := previous], index);
      NoLongerThanMap(pieces, bounds, pieceMap, prios[index := previous]);
      var now := pieceMap[index].Priority(seeds);
      if now == previous {
        assert prios[index := previous] == prios;
        return;
      }
      if previous == -1 {
        RoomForOne(pieces, bounds, pieceMap, prios[index := -1], index);
        Add(index);
      } else {
        Update(previous, pieceMap[index].index, index);
      }
      CleanBoundaries(pieces, bounds, pieceMap, Priorities(pieceMap, seeds));
    }

    /** One more peer has the piece. */
    method IncRefcount(index: nat)
      requires Valid() && index < |pieceMap|
      modifies `pieces, `bounds, `pieceMap
      ensures Valid()
      ensures var p := old(pieceMap)[index];
        MovedOnly(old(pieceMap)[index := p.(peerCount := (p.peerCount + 1) % PEER_COUNT_RANGE)], pieceMap)
      ensures old(FullValid()) ==> FullValid()
    {
      hide Clean, QueueOk, C.CursorsOk;
      var p := pieceMap[index];
      var previous := p.Priority(seeds);
      var p' := p.(peerCount := (p.peerCount + 1) % PEER_COUNT_RANGE);
      pieceMap := pieceMap[index := p'];
      MovedNone(pieceMap);
      if !dirty {
        ChangeOne(pieces, bounds, old(pieceMap), seeds, index, p');
        Relist(index, previous);
      }
      RestKept(old(pieceMap), pieceMap, index, p', downloads, slabs, blocksPerPiece, blocksInLast, cursor, reverseCursor);
      FullKept(downloads, slabs, old(pieceMap), pieceMap, blocksPerPiece, blocksInLast, index, p');
    }

    /** One peer fewer has the piece. */
    method DecRefcount(index: nat)
      requires Valid() && index < |pieceMap| && pieceMap[index].peerCount > 0
      modifies `pieces, `bounds, `pieceMap
      ensures Valid()
      ensures var p := old(pieceMap)[index];
        MovedOnly(old(pieceMap)[index := p.(peerCount := p.peerCount - 1)], pieceMap)
      ensures old(FullValid()) ==> FullValid()
    {
      hide Clean, QueueOk, C.CursorsOk;
      var p := pieceMap[index];
      var previous := p.Priority(seeds);
      var p' := p.(peerCount := p.peerCount - 1);
      pieceMap := pieceMap[index := p'];
      MovedNone(pieceMap);
      if !dirty {
        ChangeOne(pieces, bounds, old(pieceMap), seeds, index, p');
        Relist(index, previous);
      }
      RestKept(old(pieceMap), pieceMap, index, p', downloads, slabs, blocksPerPiece, blocksInLast, cursor, reverseCursor);
      FullKept(downloads, slabs, old(pieceMap), pieceMap, blocksPerPiece, blocksInLast, index, p');
    }

    /** A seed joins: it counts for every piece at once. Only the first one can change what is wanted. */
    method IncRefcountAll()
      requires Valid()
      modifies `seeds, `dirty
      ensures Valid() && seeds == old(seeds) + 1
      ensures dirty <==> old(dirty) || old(seeds) == 0
      ensures old(FullValid()) ==> FullValid()
    {
      hide QueueOk, C.CursorsOk;
      seeds := seeds + 1;
      if seeds == 1 {
        dirty := true;
      } else if !dirty {
        SeedsMatterAtZero(pieceMap, old(seeds), seeds);
      }
    }

    /** A seed leaves, or when there is none a peer that had every piece. */
    method DecRefcountAll()
      requires Valid()
      requires seeds == 0 ==> forall i | 0 <= i < |pieceMap| :: pieceMap[i].peerCount > 0
      modifies `seeds, `dirty, `pieceMap
      ensures Valid()
      ensures if old(seeds) > 0
              then seeds == old(seeds) - 1 && pieceMap == old(pieceMap) && (dirty <==> old(dirty) || old(seeds) == 1)
              else seeds == 0 && dirty && |pieceMap| == |old(pieceMap)|
                   && forall i | 0 <= i < |pieceMap| ::
                        pieceMap[i] == old(pieceMap)[i].(peerCount := old(pieceMap)[i].peerCount - 1)
      ensures old(FullValid()) ==> FullValid()
    {
      hide Clean, QueueOk, C.CursorsOk, FullOk;
      if seeds > 0 {
        seeds := seeds - 1;
        if seeds == 0 {
          dirty := true;
        } else if !dirty {
          SeedsMatterAtZero(pieceMap, old(seeds), seeds);
        }
        return;
      }
      DropFromAll();
    }

    /** A peer that had every piece leaves. */
    method DropFromAll()
      requires Valid() && forall i | 0 <= i < |pieceMap| :: pieceMap[i].peerCount > 0
      modifies `dirty, `pieceMap
      ensures Valid() && dirty && |pieceMap| == |old(pieceMap)|
      ensures forall i | 0 <= i < |pieceMap| ::
                pieceMap[i] == old(pieceMap)[i].(peerCount := old(pieceMap)[i].peerCount - 1)
      ensures old(FullValid()) ==> FullValid()
    {
      hide Clean, QueueOk, C.CursorsOk, FullOk;
      var _ := ShiftPeers(seq(|pieceMap|, _ => true), -1);
      dirty := true;
      PeersOnly(old(pieceMap), pieceMap, downloads, slabs, blocksPerPiece, blocksInLast, cursor, reverseCursor);
    }

    /** A peer announces all its pieces at once; the counts wrap like the 16-bit field they are. */
    method IncRefcountMask(mask: seq<bool>)
      requires Valid() && |mask| == |pieceMap|
      modifies `dirty, `pieceMap
      ensures Valid() && (dirty <==> old(dirty) || true in mask) && |pieceMap| == |mask|
      ensures forall i | 0 <= i < |mask| ::
                var p := old(pieceMap)[i];
                pieceMap[i] == if mask[i] then p.(peerCount := (p.peerCount + 1) % PEER_COUNT_RANGE) else p
      ensures old(FullValid()) ==> FullValid()
    {
      AddToMask(mask, 1);
    }

    /** A peer with these pieces leaves. */
    method DecRefcountMask(mask: seq<bool>)
      requires Valid() && |mask| == |pieceMap|
      modifies `dirty, `pieceMap
      ensures Valid() && (dirty <==> old(dirty) || true in mask) && |pieceMap| == |mask|
      ensures forall i | 0 <= i < |mask| ::
                var p := old(pieceMap)[i];
                pieceMap[i] == if mask[i] then p.(peerCount := (p.peerCount - 1) % PEER_COUNT_RANGE) else p
      ensures old(FullValid()) ==> FullValid()
    {
      AddToMask(mask, -1);
    }

    method ShiftPeers(mask: seq<bool>, delta: int) returns (updated: bool)
      requires |mask| == |pieceMap|
      modifies `pieceMap
      ensures updated <==> true in mask
      ensures |pieceMap| == |mask| && (!updated ==> pieceMap == old(pieceMap))
      ensures forall i | 0 <= i < |mask| ::
                var p := old(pieceMap)[i];
                pieceMap[i] == if mask[i] then p.(peerCount := (p.peerCount + delta) % PEER_COUNT_RANGE) else p
    {
      updated := false;
      for i := 0 to |mask|
        invariant |pieceMap| == |mask|
        invariant updated <==> true in mask[..i]
        invariant !updated ==> pieceMap == old(pieceMap)
        invariant forall j | 0 <= j < i ::
                    var p := old(pieceMap)[j];
                    pieceMap[j] == if mask[j] then p.(peerCount := (p.peerCount + delta) % PEER_COUNT_RANGE) else p
        invariant forall j | i <= j < |pieceMap| :: pieceMap[j] == old(pieceMap)[j]
      {
        if mask[i] {
          pieceMap := pieceMap[i := pieceMap[i].(peerCount := (pieceMap[i].peerCount + delta) % PEER_COUNT_RANGE)];
          updated := true;
        }
        assert mask[..i + 1] == mask[..i] + [mask[i]];
      }
      assert mask[..|mask|] == mask;
    }

    method AddToMask(mask: seq<bool>, delta: int)
      requires Valid() && |mask| == |pieceMap|
      modifies `dirty, `pieceMap
      ensures Valid() && (dirty <==> old(dirty) || true in mask) && |pieceMap| == |mask|
      ensures forall i | 0 <= i < |mask| ::
                var p := old(pieceMap)[i];
                pieceMap[i] == if mask[i] then p.(peerCount := (p.peerCount + delta) % PEER_COUNT_RANGE) else p
      ensures old(FullValid()) ==> FullValid()
    {
      hide Clean, QueueOk, C.CursorsOk, FullOk;
      var updated := ShiftPeers(mask, delta);
      if updated { dirty := true; }
      PeersOnly(old(pieceMap), pieceMap, downloads, slabs, blocksPerPiece, blocksInLast, cursor, reverseCursor);
    }

    /** Binary search: the first position whose piece is not below the given one. */
    method LowerBound(piece: int) returns (k: nat)
      requires Sorted(downloads)
      ensures k <= |downloads|
      ensures forall j | 0 <= j < k :: downloads[j].index < piece
      ensures forall j | k <= j < |downloads| :: downloads[j].index >= piece
    {
      var count := |downloads|;
      k := 0;
      while count > 0
        invariant 0 <= count && k + count <= |downloads|
        invariant forall j | 0 <= j < k :: downloads[j].index < piece
        invariant forall j | k + count <= j < |downloads| :: downloads[j].index >= piece
      {
        var step := count / 2;
        if downloads[k + step].index < piece {
          k := k + step + 1;
          count := count - step - 1;
        } else {
          count := step;
        }
      }
    }

    /** Binary search for a downloading piece; -1 when it is not in the list. */
    method FindDownload(piece: int) returns (k: int)
      requires Sorted(downloads)
      ensures k == Find(downloads, piece)
    {
      k := LowerBound(piece);
      FindIs(downloads, piece);
      if k == |downloads| || downloads[k].index != piece {
        k := -1;
      }
    }

    /** What the rest of the picker sees of one piece's download. */
    ghost function ViewOf(piece: int): PieceView
      reads this
    {
      View(downloads, slabs, piece)
    }

    ghost predicate QueueValidBut(piece: int)
      reads this
    {
      QueueBut(downloads, slabs, pieceMap, blocksPerPiece, blocksInLast, piece)
    }

    /** Position k holds piece `piece`, whose counters and records are in order. */
    ghost predicate PieceAt(k: int, piece: int)
      reads this
    {
      At(downloads, slabs, pieceMap, blocksPerPiece, blocksInLast, k, piece)
    }

    /** Gives a piece whose downloading flag has just been set a place in the list and a cleared slab. */
    method AddDownloadPiece(piece: nat) returns (k: nat)
      requires piece < |pieceMap| && pieceMap[piece].downloading && !pieceMap[piece].Have()
      requires QueueOk(downloads, slabs, pieceMap[piece := pieceMap[piece].(downloading := false)], blocksPerPiece, blocksInLast)
      modifies `downloads, `slabs
      ensures PieceAt(k, piece) && SameElsewhere(old(downloads), old(slabs), downloads, slabs, piece)
      ensures k < |downloads| && downloads[k].info < |slabs|
      ensures downloads[k] == DownloadingPiece(SpeedNone, piece, |old(downloads)|, 0, 0, 0)
      ensures |slabs| == if |old(downloads)| < |old(slabs)| then |old(slabs)| else |old(slabs)| + 1
      ensures slabs[downloads[k].info] == FreshBlocks(blocksPerPiece)
    {
      hide Find, View, SameElsewhere, PieceOk, Flagged, Counters;
      ghost var before := pieceMap[piece := pieceMap[piece].(downloading := false)];
      QueueAt(downloads, slabs, before, blocksPerPiece, blocksInLast, piece);
      assert Layout(downloads, slabs, blocksPerPiece);
      var n := |downloads|;
      var cleared := seq(blocksPerPiece, _ => NEW_BLOCK);
      if |slabs| < n + 1 {
        slabs := slabs + [cleared];
      }
      k := LowerBound(piece);
      var d := DownloadingPiece(SpeedNone, piece, n, 0, 0, 0);
      slabs := slabs[n := cleared];
      assert slabs[n] == FreshBlocks(blocksPerPiece);
      QueueInsert(downloads, old(slabs), pieceMap, blocksPerPiece, blocksInLast, k, d, slabs);
      downloads := Inserted(downloads, k, d);
    }

    /** Removes the piece at position k and gives its slab to the owner of the last one. */
    method EraseDownloadPiece(k: nat)
      requires k < |downloads| && QueueValidBut(downloads[k].index)
      modifies `downloads, `slabs, `pieceMap
      ensures 0 <= old(downloads)[k].index < |old(pieceMap)|
      ensures var piece := old(downloads)[k].index;
        && pieceMap == old(pieceMap)[piece := old(pieceMap)[piece].(downloading := false)]
        && QueueValid()
        && SameElsewhere(old(downloads), old(slabs), downloads, slabs, piece)
        && ViewOf(piece) == NotDownloading
    {
      hide Find, View, SameElsewhere, PieceOk, Flagged, Counters;
      assert Layout(downloads, slabs, blocksPerPiece);
      ghost var owner := LastSlabOwner(downloads, slabs, blocksPerPiece);
      var other := 0;
      while downloads[other].info != |downloads| - 1
        invariant 0 <= other <= owner
        decreases owner - other
      {
        other := other + 1;
      }
      var piece := downloads[k].index;
      ghost var slabs' := if k == other then slabs else slabs[downloads[k].info := slabs[downloads[other].info]];
      QueueErase(downloads, slabs, pieceMap, blocksPerPiece, blocksInLast, k, other, slabs');
      var compacted := downloads;
      if k != other {
        slabs := slabs[downloads[k].info := slabs[downloads[other].info]];
        compacted := downloads[other := downloads[other].(info := downloads[k].info)];
      }
      pieceMap := pieceMap[piece := pieceMap[piece].(downloading := false)];
      downloads := Erased(compacted, k);
    }

    /** Refreshes the full flag of a downloading piece. */
    method UpdateFull(k: nat, ghost piece: nat)
      requires BucketsOk() && CountsOk() && PieceAt(k, piece) && k < |downloads| && downloads[k].index == piece < |pieceMap|
      modifies `pieceMap
      ensures BucketsOk() && CountsOk() && PieceAt(k, piece)
      ensures old(QueueValid()) ==> QueueValid()
      ensures |pieceMap| == |old(pieceMap)|
      ensures pieceMap[piece].full <==> downloads[k].requested + downloads[k].finished + downloads[k].writing == BlocksIn(|pieceMap|, piece, blocksPerPiece, blocksInLast)
      ensures pieceMap == old(pieceMap)[piece := old(pieceMap)[piece].(full := pieceMap[piece].full)]
    {
      hide Clean, QueueBut, C.CursorsOk;
      var d := downloads[k];
      var num := BlocksIn(|pieceMap|, d.index, blocksPerPiece, blocksInLast);
      var p := pieceMap[d.index].(full := d.requested + d.finished + d.writing == num);
      FlagsKept(pieces, bounds, pieceMap, seeds, d.index, p, cursor, reverseCursor);
      QueueFull(downloads, slabs, pieceMap, blocksPerPiece, blocksInLast, d.index, p);
      pieceMap := pieceMap[d.index := p];
    }

    /** Sets the downloading flag and moves the piece to the bucket that goes with it. */
    method SetDownloading(piece: nat)
      requires Valid() && piece < |pieceMap|
      modifies `pieces, `bounds, `pieceMap
      ensures BucketsOk() && CountsOk()
      ensures MovedOnly(old(pieceMap)[piece := old(pieceMap)[piece].(downloading := true)], pieceMap)
    {
      hide Clean, QueueOk, C.CursorsOk;
      var p := pieceMap[piece];
      var prio := p.Priority(seeds);
      var p' := p.(downloading := true);
      pieceMap := pieceMap[piece := p'];
      MovedNone(pieceMap);
      if !dirty {
        ChangeOne(pieces, bounds, old(pieceMap), seeds, piece, p');
        Relist(piece, prio);
      }
      DownloadingKept(old(pieceMap), pieceMap, piece, p', cursor, reverseCursor);
    }

    /** Puts a piece into the downloading state: flag, bucket and an empty place in the list. */
    method StartDownloading(piece: nat) returns (k: nat)
      requires Valid() && piece < |pieceMap| && !pieceMap[piece].downloading && !pieceMap[piece].Have()
      modifies `pieces, `bounds, `pieceMap, `downloads, `slabs
      ensures BucketsOk() && CountsOk() && PieceAt(k, piece) && k < |downloads| && downloads[k].info < |slabs|
      ensures MovedOnly(old(pieceMap)[piece := old(pieceMap)[piece].(downloading := true)], pieceMap)
      ensures SameElsewhere(old(downloads), old(slabs), downloads, slabs, piece)
      ensures downloads[k] == DownloadingPiece(SpeedNone, piece, downloads[k].info, 0, 0, 0)
      ensures slabs[downloads[k].info] == FreshBlocks(blocksPerPiece)
    {
      hide Clean, QueueBut, C.CursorsOk, SameElsewhere, At, MovedOnly;
      SetDownloading(piece);
      StartedQueue(old(pieceMap), pieceMap, piece, downloads, slabs, blocksPerPiece, blocksInLast);
      k := AddDownloadPiece(piece);
    }

    /** Stores one block record and the counters that go with it. */
    method StoreBlock(k: nat, ghost piece: nat, block: nat, b: BlockInfo, d: DownloadingPiece)
      requires PieceAt(k, piece) && k < |downloads| && downloads[k].info < |slabs|
      requires block < BlocksIn(|pieceMap|, piece, blocksPerPiece, blocksInLast) && block < |slabs[downloads[k].info]|
      requires Accounts(downloads[k], d, slabs[downloads[k].info][block], b) && d.info == downloads[k].info
      modifies `downloads, `slabs
      ensures PieceAt(k, piece) && |downloads| == |old(downloads)| && downloads[k] == d
      ensures d.requested + d.writing + d.finished > 0 ==> QueueValid()
      ensures SameElsewhere(old(downloads), old(slabs), downloads, slabs, piece)
      ensures var blocks := old(slabs)[d.info][block := b];
        && ViewOf(piece) == PieceView(d.speed, blocks)
        && Active(blocks) == d.requested + d.writing + d.finished && CountState(blocks, StateRequested) == d.requested
    {
      hide At, QueueBut, SameElsewhere, CountState, View, Active;
      StoreAt(downloads, slabs, pieceMap, blocksPerPiece, blocksInLast, k, piece, block, b, d);
      slabs := slabs[d.info := slabs[d.info][block := b]];
      downloads := downloads[k := d];
    }

    /** Marks block `block` of the piece at position k as queued by one more peer. */
    method RequestBlock(k: nat, piece: nat, block: nat, peer: nat, speed: Speed)
      requires BucketsOk() && CountsOk() && PieceAt(k, piece) && speed != SpeedNone && piece < |pieceMap|
      requires block < BlocksIn(|pieceMap|, piece, blocksPerPiece, blocksInLast) <= |BlocksOf(ViewOf(piece), blocksPerPiece)|
      requires !Received(BlocksOf(ViewOf(piece), blocksPerPiece)[block])
      modifies `pieceMap, `downloads, `slabs
      ensures Valid()
      ensures ViewOf(piece) == Requested(old(ViewOf(piece)), blocksPerPiece, block, peer, speed)
      ensures SameElsewhere(old(downloads), old(slabs), downloads, slabs, piece)
      ensures |pieceMap| == |old(pieceMap)|
      ensures pieceMap[piece].full <==>
                if BlocksOf(old(ViewOf(piece)), blocksPerPiece)[block].state == StateNone then FullNow(ViewOf(piece), BlocksIn(|pieceMap|, piece, blocksPerPiece, blocksInLast)) else old(pieceMap)[piece].full
      ensures pieceMap == old(pieceMap)[piece := old(pieceMap)[piece].(full := pieceMap[piece].full)]
    {
      hide Clean, C.CursorsOk, QueueBut, At, View, SameElsewhere, Active, CountState;
      AtFacts(downloads, slabs, pieceMap, blocksPerPiece, blocksInLast, k, piece, block);
      var d, b := downloads[k], slabs[downloads[k].info][block];
      var b' := BlockInfo(peer, b.numPeers + 1, StateRequested);
      var d' := if b.state != StateRequested then d.(requested := d.requested + 1) else d;
      d' := if d.speed == SpeedNone then d'.(speed := speed) else d';
      StoreBlock(k, piece, block, b', d');
      if b.state != StateRequested {
        UpdateFull(k, piece);
      }
    }

    /** A peer queues a block. False when the block has already arrived. */
    method MarkAsDownloading(piece: nat, block: nat, peer: nat, speed: Speed) returns (ok: bool)
      requires Valid() && piece < |pieceMap| && !pieceMap[piece].Have() && speed != SpeedNone
      requires block < BlocksIn(|pieceMap|, piece, blocksPerPiece, blocksInLast)
      modifies `pieces, `bounds, `pieceMap, `downloads, `slabs
      ensures Valid()
      ensures |BlocksOf(old(ViewOf(piece)), blocksPerPiece)| == blocksPerPiece > block
      ensures ok == !Received(BlocksOf(old(ViewOf(piece)), blocksPerPiece)[block])
      ensures ViewOf(piece) == Requested(old(ViewOf(piece)), blocksPerPiece, block, peer, speed)
      ensures SameElsewhere(old(downloads), old(slabs), downloads, slabs, piece)
      ensures |pieceMap| == |old(pieceMap)|
      ensures pieceMap[piece].full <==>
                if BlocksOf(old(ViewOf(piece)), blocksPerPiece)[block].state == StateNone then FullNow(ViewOf(piece), BlocksIn(|pieceMap|, piece, blocksPerPiece, blocksInLast)) else old(pieceMap)[piece].full
      ensures MovedOnly(old(pieceMap)[piece := old(pieceMap)[piece].(downloading := true, full := pieceMap[piece].full)], pieceMap)
      ensures old(FullValid()) ==> FullValid()
    {
      hide Clean, C.CursorsOk, QueueBut, PieceOk, View, Find, SameElsewhere, Sorted;
      QueueAtFind(downloads, slabs, pieceMap, blocksPerPiece, blocksInLast, piece);
      ok := true;
      var k: int;
      if !pieceMap[piece].downloading {
        k := StartDownloading(piece);
      } else {
        SameNone(downloads, slabs, piece);
        MovedNone(pieceMap);
        k := FindDownload(piece);
        var b := slabs[downloads[k].info][block];
        if b.state == StateWriting || b.state == StateFinished {
          return false;
        }
      }
      ghost var ds, ss, pm := downloads, slabs, pieceMap;
      RequestBlock(k, piece, block, peer, speed);
      SameTwice(old(downloads), old(slabs), ds, ss, downloads, slabs, piece);
      MarkedMap(old(pieceMap), pm, pieceMap, piece);
      FullRequested(old(downloads), old(slabs), old(pieceMap), downloads, slabs, pieceMap, blocksPerPiece, blocksInLast, piece, block, peer, speed);
    }

    /** Marks block `block` of the piece at position k as on its way to disk, or notes who sent it again. */
    method WriteBlock(k: nat, ghost piece: nat, block: nat, peer: nat) returns (ok: bool)
      requires BucketsOk() && CountsOk() && PieceAt(k, piece) && piece < |pieceMap|
      requires block < BlocksIn(|pieceMap|, piece, blocksPerPiece, blocksInLast) <= |BlocksOf(ViewOf(piece), blocksPerPiece)|
      modifies `downloads, `slabs
      ensures Valid() && PieceAt(k, piece) && k < |downloads| && downloads[k].index == piece
      ensures ok == !Received(BlocksOf(old(ViewOf(piece)), blocksPerPiece)[block])
      ensures ViewOf(piece) == Written(old(ViewOf(piece)), blocksPerPiece, block, peer)
      ensures k < |downloads| && FullNow(ViewOf(piece), BlocksIn(|pieceMap|, piece, blocksPerPiece, blocksInLast)) == (downloads[k].requested + downloads[k].finished + downloads[k].writing == BlocksIn(|pieceMap|, piece, blocksPerPiece, blocksInLast))
      ensures SameElsewhere(old(downloads), old(slabs), downloads, slabs, piece)
    {
      hide Clean, C.CursorsOk, QueueBut, At, View, SameElsewhere, Active, CountState;
      AtFacts(downloads, slabs, pieceMap, blocksPerPiece, blocksInLast, k, piece, block);
      var d, b := downloads[k], slabs[downloads[k].info][block];
      if b.state == StateWriting || b.state == StateFinished {
        StoreBlock(k, piece, block, b.(peer := peer), d);
        return false;
      }
      if b.state == StateRequested {
        d := d.(requested := d.requested - 1);
      }
      d := d.(writing := d.writing + 1);
      if d.requested == 0 {
        d := d.(speed := SpeedNone);
      }
      StoreBlock(k, piece, block, BlockInfo(peer, 0, StateWriting), d);
      ok := true;
    }

    /** A block has arrived. False when it had arrived before, or the whole piece is there. */
    method MarkAsWriting(piece: nat, block: nat, peer: nat) returns (ok: bool)
      requires Valid() && piece < |pieceMap| && block < BlocksIn(|pieceMap|, piece, blocksPerPiece, blocksInLast)
      modifies `pieces, `bounds, `pieceMap, `downloads, `slabs
      ensures Valid()
      ensures |BlocksOf(old(ViewOf(piece)), blocksPerPiece)| == blocksPerPiece > block
      ensures ok == (!old(pieceMap)[piece].Have() && !Received(BlocksOf(old(ViewOf(piece)), blocksPerPiece)[block]))
      ensures ViewOf(piece) == if old(pieceMap)[piece].Have() then NotDownloading
                               else Written(old(ViewOf(piece)), blocksPerPiece, block, peer)
      ensures SameElsewhere(old(downloads), old(slabs), downloads, slabs, piece)
      ensures |pieceMap| == |old(pieceMap)|
      ensures pieceMap[piece].full <==>
                if !old(pieceMap)[piece].downloading && !old(pieceMap)[piece].Have() then FullNow(ViewOf(piece), BlocksIn(|pieceMap|, piece, blocksPerPiece, blocksInLast)) else old(pieceMap)[piece].full
      ensures if old(pieceMap)[piece].Have() then pieceMap == old(pieceMap)
              else MovedOnly(old(pieceMap)[piece := old(pieceMap)[piece].(downloading := true, full := pieceMap[piece].full)], pieceMap)
      ensures old(FullValid()) ==> FullValid()
    {
      hide Clean, C.CursorsOk, QueueBut, PieceOk, View, Find, SameElsewhere, Sorted;
      QueueAtFind(downloads, slabs, pieceMap, blocksPerPiece, blocksInLast, piece);
      SameNone(downloads, slabs, piece);
      MovedNone(pieceMap);
      var started := !pieceMap[piece].downloading;
      var k: int;
      if started {
        if pieceMap[piece].Have() { return false; }
        k := StartDownloading(piece);
      } else {
        k := FindDownload(piece);
      }
      ghost var ds, ss, pm := downloads, slabs, pieceMap;
      ok := WriteBlock(k, piece, block, peer);
      SameTwice(old(downloads), old(slabs), ds, ss, downloads, slabs, piece);
      if started {
        UpdateFull(k, piece);
      }
      MarkedMap(old(pieceMap), pm, pieceMap, piece);
      FullWritten(old(downloads), old(slabs), old(pieceMap), downloads, slabs, pieceMap, blocksPerPiece, blocksInLast, piece, block, peer);
    }

    /** Marks block `block` of the piece at position k as on disk. */
    method FinishBlock(k: nat, ghost piece: nat, block: nat, peer: nat)
      requires BucketsOk() && CountsOk() && PieceAt(k, piece) && piece < |pieceMap|
      requires block < BlocksIn(|pieceMap|, piece, blocksPerPiece, blocksInLast) <= |BlocksOf(ViewOf(piece), blocksPerPiece)|
      requires BlocksOf(ViewOf(piece), blocksPerPiece)[block].state != StateRequested
      modifies `downloads, `slabs
      ensures Valid()
      ensures ViewOf(piece) == Completed(old(ViewOf(piece)), blocksPerPiece, block, peer)
      ensures SameElsewhere(old(downloads), old(slabs), downloads, slabs, piece)
    {
      hide Clean, C.CursorsOk, QueueBut, At, View, SameElsewhere, Active, CountState;
      AtFacts(downloads, slabs, pieceMap, blocksPerPiece, blocksInLast, k, piece, block);
      var d, b := downloads[k], slabs[downloads[k].info][block];
      if b.state == StateFinished {
        StoreBlock(k, piece, block, b, d);
        return;
      }
      d := d.(finished := d.finished + 1);
      if b.state == StateWriting {
        d := d.(writing := d.writing - 1);
      }
      StoreBlock(k, piece, block, b.(peer := peer, state := StateFinished), d);
    }

    /** A block is on disk. It must not be requested from anybody at that point. */
    method MarkAsFinished(piece: nat, block: nat, peer: nat)
      requires Valid() && piece < |pieceMap| && block < BlocksIn(|pieceMap|, piece, blocksPerPiece, blocksInLast)
      requires ViewOf(piece).PieceView? && block < |ViewOf(piece).blocks| ==>
                 ViewOf(piece).blocks[block].state != StateRequested
      modifies `pieces, `bounds, `pieceMap, `downloads, `slabs
      ensures Valid()
      ensures |BlocksOf(old(ViewOf(piece)), blocksPerPiece)| == blocksPerPiece > block
      ensures ViewOf(piece) == if old(pieceMap)[piece].Have() then NotDownloading
                               else Completed(old(ViewOf(piece)), blocksPerPiece, block, peer)
      ensures SameElsewhere(old(downloads), old(slabs), downloads, slabs, piece)
      ensures if old(pieceMap)[piece].Have() then pieceMap == old(pieceMap)
              else MovedOnly(old(pieceMap)[piece := old(pieceMap)[piece].(downloading := true)], pieceMap)
      ensures old(FullValid()) ==> FullValid()
    {
      hide Clean, C.CursorsOk, QueueBut, PieceOk, View, Find, SameElsewhere, Sorted;
      QueueAtFind(downloads, slabs, pieceMap, blocksPerPiece, blocksInLast, piece);
      SameNone(downloads, slabs, piece);
      MovedNone(pieceMap);
      var k: int;
      if !pieceMap[piece].downloading {
        if pieceMap[piece].Have() { return; }
        k := StartDownloading(piece);
      } else {
        k := FindDownload(piece);
      }
      ghost var ds, ss := downloads, slabs;
      FinishBlock(k, piece, block, peer);
      SameTwice(old(downloads), old(slabs), ds, ss, downloads, slabs, piece);
      FullCompleted(old(downloads), old(slabs), old(pieceMap), downloads, slabs, pieceMap, blocksPerPiece, blocksInLast, piece, block, peer);
    }

    /** A piece whose downloading flag was cleared goes to the bucket of its new priority. */
    method RelistStopped(piece: nat, previous: int, ghost before: seq<PiecePos>)
      requires piece < |before| < WE_HAVE_INDEX && 0 < |bounds| && previous == before[piece].Priority(seeds)
      requires !dirty ==> Clean(pieces, bounds, before, Priorities(before, seeds))
      requires pieceMap == before[piece := before[piece].(downloading := false)]
      modifies `pieces, `bounds, `pieceMap
      ensures MovedOnly(old(pieceMap), pieceMap) && BucketsOk()
    {
      hide Clean, Priorities, MovedOnly;
      MovedNone(pieceMap);
      if !dirty {
        ChangeOne(pieces, bounds, before, seeds, piece, before[piece].(downloading := false));
        Relist(piece, previous);
      }
    }

    /** Takes a piece out of the list, clears its flag and moves it to the bucket that goes with that. */
    method StopDownloading(k: nat, piece: nat)
      requires BucketsOk() && CountsOk() && piece < |pieceMap| && pieceMap[piece].downloading
      requires k < |downloads| && downloads[k].index == piece && QueueValidBut(piece)
      modifies `pieces, `bounds, `pieceMap, `downloads, `slabs
      ensures Valid() && ViewOf(piece) == NotDownloading
      ensures SameElsewhere(old(downloads), old(slabs), downloads, slabs, piece)
      ensures MovedOnly(old(pieceMap)[piece := old(pieceMap)[piece].(downloading := false)], pieceMap)
    {
      hide Clean, Priorities, QueueBut, QueueOk, C.CursorsOk, C.Total, View, Find, SameElsewhere, MovedOnly, BucketsOk;
      BucketsParts();
      var previous := pieceMap[piece].Priority(seeds);
      EraseDownloadPiece(k);
      ghost var pm := pieceMap;
      RelistStopped(piece, previous, old(pieceMap));
      DownloadingKept(old(pieceMap), pieceMap, piece, old(pieceMap)[piece].(downloading := false), cursor, reverseCursor);
      QueueMoved(downloads, slabs, pm, pieceMap, blocksPerPiece, blocksInLast);
    }

    lemma BucketsParts()
      requires BucketsOk()
      ensures 0 < |bounds| && |pieceMap| < WE_HAVE_INDEX
      ensures !dirty ==> Clean(pieces, bounds, pieceMap, Priorities(pieceMap, seeds))
    {
    }

    /** A complete piece failed its hash check and is to be downloaded again. */
    method RestorePiece(piece: nat)
      requires Valid() && piece < |pieceMap| && pieceMap[piece].downloading
      modifies `pieces, `bounds, `pieceMap, `downloads, `slabs
      ensures Valid() && ViewOf(piece) == NotDownloading
      ensures SameElsewhere(old(downloads), old(slabs), downloads, slabs, piece)
      ensures MovedOnly(old(pieceMap)[piece := old(pieceMap)[piece].(downloading := false)], pieceMap)
      ensures old(FullValid()) ==> FullValid()
    {
      hide Clean, C.CursorsOk, QueueBut, PieceOk, View, Find, SameElsewhere, Sorted;
      QueueAtFind(downloads, slabs, pieceMap, blocksPerPiece, blocksInLast, piece);
      var k := FindDownload(piece);
      StopDownloading(k, piece);
      FullStopped(old(downloads), old(slabs), old(pieceMap), downloads, slabs, pieceMap, blocksPerPiece, blocksInLast, piece,
                  old(pieceMap)[piece].(downloading := false));
    }

    /** Frees block `block` of the piece at position k, and the piece itself when nothing else of it is active. */
    method FreeBlock(k: nat, piece: nat, block: nat)
      requires BucketsOk() && CountsOk() && PieceAt(k, piece) && piece < |pieceMap| && pieceMap[piece].downloading
      requires block < BlocksIn(|pieceMap|, piece, blocksPerPiece, blocksInLast)
      requires ViewOf(piece).PieceView? && block < |ViewOf(piece).blocks|
      requires ViewOf(piece).blocks[block].state == StateRequested || ViewOf(piece).blocks[block].state == StateWriting
      modifies `pieces, `bounds, `pieceMap, `downloads, `slabs
      ensures Valid()
      ensures ViewOf(piece) == Settle(old(ViewOf(piece)).speed, old(ViewOf(piece)).blocks[block := NEW_BLOCK])
      ensures SameElsewhere(old(downloads), old(slabs), downloads, slabs, piece)
      ensures |pieceMap| == |old(pieceMap)|
      ensures pieceMap[piece].full <==> FullNow(ViewOf(piece), BlocksIn(|pieceMap|, piece, blocksPerPiece, blocksInLast))
      ensures MovedOnly(old(pieceMap)[piece := old(pieceMap)[piece].(downloading := ViewOf(piece).PieceView?,
                                                                     full := pieceMap[piece].full)], pieceMap)
    {
      hide Clean, C.CursorsOk, QueueBut, At, View, SameElsewhere, Active, CountState, MovedOnly;
      AtFacts(downloads, slabs, pieceMap, blocksPerPiece, blocksInLast, k, piece, block);
      var d, b := downloads[k], slabs[downloads[k].info][block];
      if b.state == StateRequested {
        d := d.(requested := d.requested - 1);
      } else {
        d := d.(writing := d.writing - 1);
      }
      if d.requested == 0 {
        d := d.(speed := SpeedNone);
      }
      StoreBlock(k, piece, block, NEW_BLOCK, d);
      UpdateFull(k, piece);
      FreedMap(old(pieceMap), pieceMap, pieceMap, piece);
      if d.finished + d.writing + d.requested == 0 {
        ghost var ds, ss, pm := downloads, slabs, pieceMap;
        AtQueueBut(downloads, slabs, pieceMap, blocksPerPiece, blocksInLast, k, piece);
        StopDownloading(k, piece);
        SameTwice(old(downloads), old(slabs), ds, ss, downloads, slabs, piece);
        FreedMap(old(pieceMap), pm, pieceMap, piece);
      }
    }

    /** Writing a block failed. */
    method WriteFailed(piece: nat, block: nat)
      requires Valid() && piece < |pieceMap| && block < BlocksIn(|pieceMap|, piece, blocksPerPiece, blocksInLast)
      requires ViewOf(piece).PieceView? && block < |ViewOf(piece).blocks| ==> Received(ViewOf(piece).blocks[block])
      modifies `pieces, `bounds, `pieceMap, `downloads, `slabs
      ensures Valid()
      ensures old(ViewOf(piece)).PieceView? ==> block < |old(ViewOf(piece)).blocks|
      ensures ViewOf(piece) == Failed(old(ViewOf(piece)), block)
      ensures SameElsewhere(old(downloads), old(slabs), downloads, slabs, piece)
      ensures |pieceMap| == |old(pieceMap)|
      ensures var v := old(ViewOf(piece));
        pieceMap[piece].full <==>
          if v.PieceView? && v.blocks[block].state == StateWriting then FullNow(ViewOf(piece), BlocksIn(|pieceMap|, piece, blocksPerPiece, blocksInLast)) else old(pieceMap)[piece].full
      ensures MovedOnly(old(pieceMap)[piece := old(pieceMap)[piece].(downloading := ViewOf(piece).PieceView?,
                                                                     full := pieceMap[piece].full)], pieceMap)
      ensures old(FullValid()) ==> FullValid()
    {
      hide Clean, C.CursorsOk, QueueBut, PieceOk, View, Find, SameElsewhere, Sorted, MovedOnly;
      QueueAtFind(downloads, slabs, pieceMap, blocksPerPiece, blocksInLast, piece);
      SameNone(downloads, slabs, piece);
      MovedNone(pieceMap);
      assert pieceMap == pieceMap[piece := pieceMap[piece].(downloading := ViewOf(piece).PieceView?, full := pieceMap[piece].full)];
      var k := FindDownload(piece);
      if k == -1 || slabs[downloads[k].info][block].state == StateFinished { return; }
      FreeBlock(k, piece, block);
      FullFailed(old(downloads), old(slabs), old(pieceMap), downloads, slabs, pieceMap, blocksPerPiece, blocksInLast, piece, block);
    }

    /** A peer drops its request for a block. */
    method AbortDownload(piece: nat, block: nat, peer: nat)
      requires Valid() && piece < |pieceMap| && block < BlocksIn(|pieceMap|, piece, blocksPerPiece, blocksInLast)
      modifies `pieces, `bounds, `pieceMap, `downloads, `slabs
      ensures Valid()
      ensures old(ViewOf(piece)).PieceView? ==> block < |old(ViewOf(piece)).blocks|
      ensures ViewOf(piece) == Aborted(old(ViewOf(piece)), block, peer)
      ensures SameElsewhere(old(downloads), old(slabs), downloads, slabs, piece)
      ensures |pieceMap| == |old(pieceMap)|
      ensures var v := old(ViewOf(piece));
        pieceMap[piece].full <==>
          if v.PieceView? && v.blocks[block].state == StateRequested && v.blocks[block].numPeers <= 1
          then FullNow(ViewOf(piece), BlocksIn(|pieceMap|, piece, blocksPerPiece, blocksInLast)) else old(pieceMap)[piece].full
      ensures MovedOnly(old(pieceMap)[piece := old(pieceMap)[piece].(downloading := ViewOf(piece).PieceView?,
                                                                     full := pieceMap[piece].full)], pieceMap)
      ensures old(FullValid()) ==> FullValid()
    {
      hide Clean, C.CursorsOk, QueueBut, PieceOk, View, Find, SameElsewhere, Sorted, MovedOnly;
      QueueAtFind(downloads, slabs, pieceMap, blocksPerPiece, blocksInLast, piece);
      SameNone(downloads, slabs, piece);
      MovedNone(pieceMap);
      assert pieceMap == pieceMap[piece := pieceMap[piece].(downloading := ViewOf(piece).PieceView?, full := pieceMap[piece].full)];
      if !pieceMap[piece].downloading { return; }
      var k := FindDownload(piece);
      var d, b := downloads[k], slabs[downloads[k].info][block];
      if b.state == StateFinished || b.state == StateNone || b.state == StateWriting { return; }
      AtFacts(downloads, slabs, pieceMap, blocksPerPiece, blocksInLast, k, piece, block);
      if b.numPeers > 1 {
        StoreBlock(k, piece, block, b.(numPeers := b.numPeers - 1, peer := if b.peer == peer then 0 else b.peer), d);
      } else {
        FreeBlock(k, piece, block);
      }
      FullAborted(old(downloads), old(slabs), old(pieceMap), downloads, slabs, pieceMap, blocksPerPiece, blocksInLast, piece, block, peer);
    }

    /** Moves the cursors after piece `index` stopped being wanted. The map may or may not show that yet. */
    method RetreatCursors(index: nat, ghost before: seq<PiecePos>, ghost after: seq<PiecePos>)
      requires index < |pieceMap| == |before| == |after|
      requires forall i | 0 <= i < |pieceMap| && i != index ::
                 pieceMap[i].Wanted() == before[i].Wanted() == after[i].Wanted()
      requires !after[index].Wanted() && C.CursorsOk(cursor, reverseCursor, before)
      modifies `cursor, `reverseCursor
      ensures C.CursorsOk(cursor, reverseCursor, after)
    {
      if cursor == reverseCursor - 1 && cursor == index {
        cursor := |pieceMap|;
        reverseCursor := 0;
      } else if cursor == index {
        cursor := cursor + 1;
        while cursor < |pieceMap| && !pieceMap[cursor].Wanted()
          invariant index < cursor <= |pieceMap| && cursor < reverseCursor
          invariant reverseCursor == old(reverseCursor)
          invariant forall i | 0 <= i < cursor :: !after[i].Wanted()
        {
          cursor := cursor + 1;
        }
      } else if reverseCursor - 1 == index {
        reverseCursor := reverseCursor - 1;
        while reverseCursor > 0 && !pieceMap[reverseCursor - 1].Wanted()
          invariant cursor < reverseCursor <= index
          invariant cursor == old(cursor)
          invariant forall i | reverseCursor <= i < |after| :: !after[i].Wanted()
        {
          reverseCursor := reverseCursor - 1;
        }
      }
    }

    /** Moves the cursors before piece `index` starts being wanted. */
    method AdvanceCursors(index: nat, ghost after: seq<PiecePos>)
      requires index < |pieceMap| == |after|
      requires forall i | 0 <= i < |pieceMap| && i != index :: pieceMap[i].Wanted() == after[i].Wanted()
      requires after[index].Wanted() && C.CursorsOk(cursor, reverseCursor, pieceMap)
      modifies `cursor, `reverseCursor
      ensures C.CursorsOk(cursor, reverseCursor, after)
    {
      if index < cursor {
        cursor := index;
      }
      if index >= reverseCursor {
        reverseCursor := index + 1;
      }
      // The two cursors cannot meet here: a wanted piece lies between them.
      assert cursor < reverseCursor;
    }

    /** Records that we have a piece that is no longer downloading. */
    method MarkHad(index: nat)
      requires CountsOk() && QueueValid() && index < |pieceMap|
      requires !pieceMap[index].downloading && !pieceMap[index].Have()
      modifies `pieceMap, `numFiltered, `numHaveFiltered, `numHave, `cursor, `reverseCursor
      ensures CountsOk() && QueueValid()
      ensures pieceMap == old(pieceMap)[index := old(pieceMap)[index].(index := WE_HAVE_INDEX)]
    {
      hide C.CursorsOk, QueueBut, C.Total;
      if pieceMap[index].Filtered() {
        numFiltered := numFiltered - 1;
        numHaveFiltered := numHaveFiltered + 1;
      }
      numHave := numHave + 1;
      pieceMap := pieceMap[index := pieceMap[index].(index := WE_HAVE_INDEX)];
      C.TotalUpdate(old(pieceMap), index, pieceMap[index]);
      RetreatCursors(index, old(pieceMap), pieceMap);
      DownloadingIsMissing(downloads, slabs, old(pieceMap), blocksPerPiece, blocksInLast);
      QueueKept(downloads, slabs, old(pieceMap), pieceMap, blocksPerPiece, blocksInLast);
    }

    /** We have a piece: it leaves the list, the download queue and the wanted range. */
    method WeHave(index: nat)
      requires Valid() && index < |pieceMap|
      modifies `pieces, `bounds, `pieceMap, `downloads, `slabs, `numFiltered, `numHaveFiltered, `numHave, `cursor, `reverseCursor
      ensures Valid() && ViewOf(index) == NotDownloading
      ensures SameElsewhere(old(downloads), old(slabs), downloads, slabs, index)
      ensures MovedOnly(old(pieceMap)[index := old(pieceMap)[index].(downloading := false, index := WE_HAVE_INDEX)], pieceMap)
      ensures old(FullValid()) ==> FullValid()
    {
      hide *;
      Parts();
      QueueAt(downloads, slabs, pieceMap, blocksPerPiece, blocksInLast, index);
      SameNone(downloads, slabs, index);
      MovedNone(pieceMap);
      var p := pieceMap[index];
      HadRecord(p);
      var infoIndex, priority := p.index, p.Priority(seeds);
      if p.downloading {
        var k := FindDownload(index);
        EraseDownloadPiece(k);
        MovedNone(pieceMap);
        DownloadingKept(old(pieceMap), pieceMap, index, p.(downloading := false), cursor, reverseCursor);
        Parts();
      }
      ghost var had := old(pieceMap)[index := p.(downloading := false, index := WE_HAVE_INDEX)];
      MovedNone(had);
      if p.Have() {
        assert pieceMap == had;
        FullStopped(old(downloads), old(slabs), old(pieceMap), downloads, slabs, pieceMap, blocksPerPiece, blocksInLast, index,
                    p.(downloading := false, index := WE_HAVE_INDEX));
        Parts();
        return;
      }
      MarkHad(index);
      assert pieceMap == had;
      if !dirty {
        HadList(pieces, bounds, old(pieceMap), pieceMap, seeds, index);
      }
      Parts();
      if priority != -1 && !dirty {
        Remove(priority, infoIndex, index);
        MovedKind(had, pieceMap, cursor, reverseCursor);
        QueueMoved(downloads, slabs, had, pieceMap, blocksPerPiece, blocksInLast);
        CleanBoundaries(pieces, bounds, pieceMap, Priorities(pieceMap, seeds));
      }
      FullStopped(old(downloads), old(slabs), old(pieceMap), downloads, slabs, pieceMap, blocksPerPiece, blocksInLast, index,
                  p.(downloading := false, index := WE_HAVE_INDEX));
      Parts();
    }

    /** A piece we had turned out bad. It must not be downloading. */
    method WeDontHave(index: nat)
      requires Valid() && index < |pieceMap| && !pieceMap[index].downloading
      modifies `pieces, `bounds, `pieceMap, `numFiltered, `numHaveFiltered, `numHave, `cursor, `reverseCursor
      ensures Valid()
      ensures if old(pieceMap)[index].Have()
              then MovedOnly(old(pieceMap)[index := old(pieceMap)[index].(index := 0)], pieceMap)
              else pieceMap == old(pieceMap)
      ensures old(FullValid()) ==> FullValid()
    {
      hide *;
      Parts();
      var p := pieceMap[index];
      if !p.Have() { return; }
      ghost var after := pieceMap[index := p.(index := 0)];
      LostKinds(pieceMap, index, after);
      if p.Filtered() {
        numFiltered := numFiltered + 1;
        numHaveFiltered := numHaveFiltered - 1;
        C.SameUnwanted(pieceMap, after, cursor, reverseCursor);
      } else {
        AdvanceCursors(index, after);
      }
      numHave := numHave - 1;
      pieceMap := pieceMap[index := pieceMap[index].(index := 0)];
      if !dirty {
        ChangeOne(pieces, bounds, old(pieceMap), seeds, index, p.(index := 0));
        Relist(index, -1);
      }
      LostMoved(old(pieceMap), index, after, pieceMap, downloads, slabs, blocksPerPiece, blocksInLast, cursor, reverseCursor);
      Parts();
    }

    /** Counters and cursors for a change of the user's priority, which is stored afterwards. */
    method CountPriority(index: nat, priority: PiecePriority) returns (changed: bool)
      requires CountsOk() && index < |pieceMap|
      modifies `numFiltered, `numHaveFiltered, `cursor, `reverseCursor
      ensures changed <==> (priority == 0) != pieceMap[index].Filtered()
      ensures var after := pieceMap[index := pieceMap[index].(piecePriority := priority)];
        && C.CursorsOk(cursor, reverseCursor, after)
        && C.Total(after) == C.Tally(numHave, numFiltered, numHaveFiltered)
    {
      hide C.CursorsOk, C.Total;
      var p := pieceMap[index];
      ghost var after := pieceMap[index := p.(piecePriority := priority)];
      C.TotalUpdate(pieceMap, index, p.(piecePriority := priority));
      changed := true;
      if priority == 0 && p.piecePriority != 0 {
        if p.Have() {
          numHaveFiltered := numHaveFiltered + 1;
          C.SameUnwanted(pieceMap, after, cursor, reverseCursor);
        } else {
          numFiltered := numFiltered + 1;
          RetreatCursors(index, pieceMap, after);
        }
      } else if priority != 0 && p.piecePriority == 0 {
        if p.Have() {
          numHaveFiltered := numHaveFiltered - 1;
          C.SameUnwanted(pieceMap, after, cursor, reverseCursor);
        } else {
          numFiltered := numFiltered - 1;
          AdvanceCursors(index, after);
        }
      } else {
        C.SameUnwanted(pieceMap, after, cursor, reverseCursor);
        changed := false;
      }
    }

    /** Sets the user's priority of a piece. True when it became filtered or stopped being filtered. */
    method SetPiecePriority(index: nat, priority: PiecePriority) returns (changed: bool)
      requires Valid() && index < |pieceMap|
      modifies `pieces, `bounds, `pieceMap, `numFiltered, `numHaveFiltered, `cursor, `reverseCursor
      ensures Valid()
      ensures changed <==> (priority == 0) != old(pieceMap)[index].Filtered()
      ensures MovedOnly(old(pieceMap)[index := old(pieceMap)[index].(piecePriority := priority)], pieceMap)
      ensures old(FullValid()) ==> FullValid()
    {
      hide Clean, C.CursorsOk, QueueOk, MovedOnly, C.Total, FullOk;
      var p := pieceMap[index];
      MovedNone(pieceMap);
      if priority == p.piecePriority {
        assert pieceMap == pieceMap[index := p.(piecePriority := priority)];
        return false;
      }
      var previous := p.Priority(seeds);
      changed := CountPriority(index, priority);
      var p' := p.(piecePriority := priority);
      pieceMap := pieceMap[index := p'];
      MovedNone(pieceMap);
      DownloadingIsMissing(downloads, slabs, old(pieceMap), blocksPerPiece, blocksInLast);
      QueueKept(downloads, slabs, old(pieceMap), pieceMap, blocksPerPiece, blocksInLast);
      if !dirty {
        ChangeOne(pieces, bounds, old(pieceMap), seeds, index, p');
        ghost var before := pieceMap;
        Relist(index, previous);
        MovedKind(before, pieceMap, cursor, reverseCursor);
        QueueMoved(downloads, slabs, before, pieceMap, blocksPerPiece, blocksInLast);
      }
      FullKept(downloads, slabs, old(pieceMap), pieceMap, blocksPerPiece, blocksInLast, index, p');
    }

    /** A picker for no pieces at all. */
    constructor ()
      ensures Valid() && FullValid() && !dirty && pieceMap == [] && pieces == [] && downloads == [] && seeds == 0
    {
      seeds, pieces, bounds, pieceMap, dirty := 0, [], [0], [], false;
      downloads, slabs, blocksPerPiece, blocksInLast := [], [], 0, 0;
      numFiltered, numHaveFiltered, numHave, cursor, reverseCursor := 0, 0, 0, 0, 0;
    }

    lemma CountsAre()
      requires Valid()
      ensures 0 < |bounds| && C.Total(pieceMap) == C.Tally(numHave, numFiltered, numHaveFiltered)
    {
      hide Clean, C.Total, C.CursorsOk, QueueOk;
    }

    /** With records reset, cursors found and no downloads, the picker is right except for the number of filtered pieces. */
    lemma InitDone(before: seq<PiecePos>, total: nat)
      requires Reset(before, pieceMap, total) && C.CursorsOk(cursor, reverseCursor, pieceMap)
      requires 0 < |bounds| && total < WE_HAVE_INDEX && dirty && downloads == [] && slabs == [] && 0 < blocksInLast <= blocksPerPiece
      requires numHave == numHaveFiltered == 0 && numFiltered == C.Total(before).filtered + C.Total(before).haveFiltered
      ensures BucketsOk() && QueueValid() && FullValid()
      ensures Valid() <==> C.NoneFilteredFrom(before, total)
    {
      hide *;
      Parts();
      ResetFacts(before, pieceMap, total);
      EmptyQueue(pieceMap, blocksPerPiece, blocksInLast);
      FullNone(pieceMap, blocksPerPiece, blocksInLast);
      C.ResetTotals(before, pieceMap);
    }

    /** Sets the number of pieces and forgets everything but their priorities. The count of filtered
        pieces is carried over, so it is right unless a filtered piece is dropped from the end. */
    method Init(perPiece: nat, inLast: nat, total: nat)
      requires Valid() && 0 < perPiece && 0 < total < WE_HAVE_INDEX && inLast <= perPiece
      modifies this
      ensures BucketsOk() && QueueValid() && FullValid() && C.CursorsOk(cursor, reverseCursor, pieceMap) && dirty && downloads == []
      ensures Valid() <==> C.NoneFilteredFrom(old(pieceMap), total)
      ensures blocksPerPiece == perPiece && blocksInLast == if inLast == 0 then perPiece else inLast
      ensures Reset(old(pieceMap), pieceMap, total) && seeds == old(seeds)
    {
      hide *;
      CountsAre();
      ghost var before := pieceMap;
      downloads, slabs := [], [];
      numFiltered := numFiltered + numHaveFiltered;
      numHaveFiltered := 0;
      numHave := 0;
      dirty := true;
      ResetPieces(total);
      FindCursors();
      blocksPerPiece := perPiece;
      blocksInLast := if inLast == 0 then perPiece else inLast;
      InitDone(before, total);
    }

    /** Resizes the piece map and clears every record but for its priority. */
    method ResetPieces(total: nat)
      modifies `pieceMap
      ensures Reset(old(pieceMap), pieceMap, total)
    {
      if total <= |pieceMap| {
        pieceMap := pieceMap[..total];
      } else {
        pieceMap := pieceMap + seq(total - |pieceMap|, _ => PiecePos(0, false, false, 1, 0));
      }
      ghost var resized := pieceMap;
      for i := 0 to total
        invariant |pieceMap| == total
        invariant forall j | 0 <= j < i :: pieceMap[j] == resized[j].(peerCount := 0, downloading := false, index := 0)
        invariant forall j | i <= j < total :: pieceMap[j] == resized[j]
      {
        pieceMap := pieceMap[i := pieceMap[i].(peerCount := 0, downloading := false, index := 0)];
      }
    }

    /** Scans for both cursors. */
    method FindCursors()
      modifies `cursor, `reverseCursor
      ensures C.CursorsOk(cursor, reverseCursor, pieceMap)
    {
      cursor := 0;
      reverseCursor := |pieceMap|;
      while cursor < |pieceMap| && !pieceMap[cursor].Wanted()
        invariant 0 <= cursor <= |pieceMap| && reverseCursor == |pieceMap|
        invariant forall i | 0 <= i < cursor :: !pieceMap[i].Wanted()
      {
        cursor := cursor + 1;
      }
      label Forward:
      while reverseCursor > 0 && !pieceMap[reverseCursor - 1].Wanted()
        invariant 0 <= reverseCursor <= |pieceMap| && cursor == old@Forward(cursor)
        invariant forall i | reverseCursor <= i < |pieceMap| :: !pieceMap[i].Wanted()
      {
        reverseCursor := reverseCursor - 1;
      }
    }
  }
}
