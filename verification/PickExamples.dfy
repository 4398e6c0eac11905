/** Picks that list a filtered piece, or a block twice: what the guards of PickPieces exclude does happen. */
module PickExamples {
  import opened PieceTypes
  import opened Downloads
  import opened FullFlags
  import opened PickLaws
  import opened PickPieces
  import B = Buckets
  import C = Cursors
  import P = PiecePicker

  /** In a torrent nobody downloads from yet, with one seed, every block is fresh, every piece has a priority, and the
      cursors span all pieces. */
  lemma AllFresh(p: P.Picker, s: Snapshot, q: Request, n: nat)
    requires p.Valid() && P.Reset([], p.pieceMap, n) && s == SnapshotOf(p) && q.bits == seq(n, _ => true) && n > 0 && p.seeds == 1
    ensures |s.pieceMap| == n && p.cursor == 0 && p.reverseCursor == n
    ensures forall k: nat | k < n :: CanPick(s, k, q.bits) && 0 < s.BlocksIn(k) <= s.blocksPerPiece && Fresh(s, q, PieceBlock(k, 0))
    ensures forall k: nat | k < n :: s.pieceMap[k].Priority(p.seeds) >= 0
  {
    assert forall i | 0 <= i < n :: p.pieceMap[i].Wanted();
    assert p.pieceMap[0].Wanted() && p.pieceMap[n - 1].Wanted();
    assert s.BlocksIn(0) > 0 && s.BlocksIn(n - 1) > 0;
  }

  lemma AllAscend(n: nat, reverse: bool)
    ensures forall k: nat | k < n :: k in Ascent(0, n, reverse)
  {
    var order := Ascent(0, n, reverse);
    forall k: nat | k < n
      ensures k in order
    {
      assert order[if reverse then n - 1 - k else k] == k;
    }
  }

  /** With runs of two pieces or more, the last two pieces both touch the last but one. */
  lemma RunsMeet(s: Snapshot, q: Request)
    requires 2 <= |s.pieceMap| == |q.bits| && q.whole > 1
    requires forall k: nat | k < |s.pieceMap| :: CanPick(s, k, q.bits)
    ensures Touches(s, q, |s.pieceMap| - 2, |s.pieceMap| - 2) && Touches(s, q, |s.pieceMap| - 1, |s.pieceMap| - 2)
  {
    var last := |s.pieceMap| - 1;
    assert CanPick(s, last, q.bits) && CanPick(s, last - 1, q.bits);
  }

  /** Where a repeated piece stands. */
  lemma Place(pieces: seq<nat>, x: nat) returns (i: nat)
    requires x in pieces
    ensures i < |pieces| && pieces[i] == x
  {
    i :| 0 <= i < |pieces| && pieces[i] == x;
  }

  /** Two touches of one piece, among the suggested ones or in the order that ignores these. */
  lemma VisitedTwice(s: Snapshot, q: Request, suggested: seq<nat>, order: seq<nat>, a: nat, b: nat, x: nat)
    requires |s.pieceMap| == |q.bits| && a != b && Touches(s, q, a, x) && Touches(s, q, b, x) && a in order && b in order
    ensures Visits(s, q, suggested, [], x) + Visits(s, q, order, suggested, x) >= 2
  {
    hide Touches;
    if a in suggested {
      var i := Place(suggested, a);
      if b in suggested {
        var j := Place(suggested, b);
        VisitsTwice(s, q, suggested, [], x, if i < j then i else j, if i < j then j else i);
      } else {
        var j := Place(order, b);
        VisitsTwice(s, q, suggested, [], x, i, i);
        VisitsTwice(s, q, order, suggested, x, j, j);
      }
    } else {
      var i := Place(order, a);
      if b in suggested {
        var j := Place(suggested, b);
        VisitsTwice(s, q, suggested, [], x, j, j);
        VisitsTwice(s, q, order, suggested, x, i, i);
      } else {
        var j := Place(order, b);
        VisitsTwice(s, q, order, suggested, x, if i < j then i else j, if i < j then j else i);
      }
    }
  }

  /** Whenever a guard fails, some piece of a torrent nobody downloads from yet is touched twice. */
  lemma SomeTwice(s: Snapshot, q: Request, suggested: seq<nat>, order: seq<nat>) returns (x: nat)
    requires 0 < |s.pieceMap| == |q.bits| && forall k: nat | k < |s.pieceMap| :: CanPick(s, k, q.bits)
    requires AllPieces(suggested, |s.pieceMap|)
    requires !Distinct(suggested) || (!Apart(s, q) && forall k: nat | k < |s.pieceMap| :: k in order)
    ensures x < |s.pieceMap| && Visits(s, q, suggested, [], x) + Visits(s, q, order, suggested, x) >= 2
  {
    hide Visits;
    if Distinct(suggested) {
      x := |s.pieceMap| - 2;
      RunsMeet(s, q);
      VisitedTwice(s, q, suggested, order, x, x + 1, x);
    } else {
      var i, j :| 0 <= i < j < |suggested| && suggested[i] == suggested[j];
      x := suggested[i];
      assert CanPick(s, x, q.bits);
      VisitsTwice(s, q, suggested, [], x, i, j);
    }
  }

  /** More picks than there are blocks, or two of one block: some block is listed twice. */
  lemma NotDistinct(s: Snapshot, q: Request, suggested: seq<nat>, order: seq<nat>, wanted: nat, result: seq<PieceBlock>)
    requires s.Ok() && 0 < |s.pieceMap| == |q.bits| && Picked(s, q, [], result) && wanted > |s.pieceMap| * s.blocksPerPiece
    requires forall k: nat | k < |s.pieceMap| :: CanPick(s, k, q.bits) && Fresh(s, q, PieceBlock(k, 0))
    requires Frequencies(s, q, suggested, order, result, Short([], wanted, result)) && AllPieces(suggested, |s.pieceMap|)
    requires !Distinct(suggested) || (!Apart(s, q) && (Short([], wanted, result) ==> forall k: nat | k < |s.pieceMap| :: k in order))
    ensures !DistinctBlocks(result)
  {
    hide Visits, Fresh, DistinctBlocks, Picked, Distinct, CanPick;
    CountsDistinct(result);
    if Short([], wanted, result) {
      var x := SomeTwice(s, q, suggested, order);
      assert PieceBlock(x, 0).piece == x;
    } else if DistinctBlocks(result) {
      InRange(s, q, result);
      AtMostAll(result, |s.pieceMap|, s.blocksPerPiece);
    }
  }

  lemma InRange(s: Snapshot, q: Request, result: seq<PieceBlock>)
    requires s.Ok() && |s.pieceMap| == |q.bits| && Picked(s, q, [], result)
    ensures forall i | 0 <= i < |result| :: result[i].piece < |s.pieceMap| && result[i].block < s.blocksPerPiece
  {
    assert s.blocksInLast <= s.blocksPerPiece;
    hide QueueOk, Snapshot.Ok, Picked;
    forall i | 0 <= i < |result|
      ensures result[i].piece < |s.pieceMap| && result[i].block < s.blocksPerPiece
    {
      PickedAt(s, q, [], result, i);
    }
  }

  /** For every number of pieces, and every request that suggests a piece twice, or that asks for runs of whole pieces in
      sequential or rarest first order, there is a picker whose pick lists a block twice: neither guard can be dropped. */
  method Repeats(n: nat, whole: nat, suggested: seq<nat>, options: Options) returns (result: seq<PieceBlock>)
    requires 0 < n < WE_HAVE_INDEX && AllPieces(suggested, n) && !options.ignoreWholePieces
    requires !(options.rarestFirst && options.sequential)
    requires !Distinct(suggested) || (!(whole <= 1 || n == 1) && (options.rarestFirst || options.sequential))
    ensures !DistinctBlocks(result)
  {
    hide QueueOk, QueueBut, FullOk, C.CursorsOk, Picked, Frequencies, Distinct, DistinctBlocks, Visits, Fresh, Free, CanPick, BestFirst,
         Findable, Taken, Ascent, ListOrder, B.Clean, C.Total, PiecePos.Priority, AllPieces;
    var p := new P.Picker();
    p.Init(1, 0, n);
    p.IncRefcountAll();
    var request := Request(seq(n, _ => true), 1, Slow, whole, options);
    ghost var s := SnapshotOf(p);
    ghost var q := Effective(request, 0, 0);
    AllFresh(p, s, q, n);
    AllAscend(n, options.reverse);
    result := PickPieces.PickPieces(p, request, [], n + 1, suggested, 0);
    assert result[0..] == result;
    NotDistinct(s, q, suggested, OrderOf(p, q), n + 1, result);
  }

  /** One piece of two blocks, the first one requested, and then filtered: the second block is still free. */
  lemma FilteredFree(a: seq<PiecePos>, b: seq<PiecePos>, s: Snapshot, request: Request)
    requires P.Reset([], a, 1) && s.Ok() && s.blocksPerPiece == s.blocksInLast == 2
    requires |b| == 1 && MovedOnly(a[0 := a[0].(downloading := true, full := b[0].full)], b)
    requires MovedOnly(b[0 := b[0].(piecePriority := 0)], s.pieceMap)
    requires |BlocksOf(NotDownloading, 2)| == 2 && View(s.downloads, s.slabs, 0) == Requested(NotDownloading, 2, 0, 1, Slow)
    requires request.bits == [true] && !request.options.onParole
    ensures |s.pieceMap| == 1 && s.pieceMap[0].Filtered()
    ensures var q := Effective(request, |s.downloads|, 1);
      Free(s, q, PieceBlock(0, 1)) && q.options.prioritizePartials == request.options.prioritizePartials
  {
    assert b[0].SameButIndex(a[0 := a[0].(downloading := true, full := b[0].full)][0]);
    assert s.pieceMap[0].SameButIndex(b[0 := b[0].(piecePriority := 0)][0]);
    FlaggedRange(s.downloads, s.pieceMap);
    assert Sorted(s.downloads);
    Pigeonhole(seq(|s.downloads|, k requires 0 <= k < |s.downloads| => s.downloads[k].index), 1);
  }

  lemma NoView(p: P.Picker)
    ensures p.ViewOf(0) == View(p.downloads, p.slabs, 0)
    ensures 1 < WE_HAVE_INDEX && C.NoneFilteredFrom([], 1)
    ensures p.downloads == [] ==> p.ViewOf(0) == NotDownloading
    ensures p.Valid() ==> |BlocksOf(NotDownloading, p.blocksPerPiece)| == p.blocksPerPiece
    ensures BlocksIn(1, 0, p.blocksPerPiece, p.blocksInLast) == p.blocksInLast
    ensures forall a: seq<PiecePos> :: P.Reset([], a, 1) ==> |a| == 1 && !a[0].Have()
  {
  }

  /** A torrent of one piece, whose first block is requested when the piece is filtered: a pick still lists its second
      block, if partial pieces are preferred. */
  method FilteredOffered(prefer: bool) returns (result: seq<PieceBlock>)
    ensures PieceBlock(0, 1) in result <==> prefer
  {
    hide *;
    var p := new P.Picker();
    NoView(p);
    p.Init(2, 0, 1);
    NoView(p);
    ghost var a := p.pieceMap;
    var ok := p.MarkAsDownloading(0, 0, 1, Slow);
    NoView(p);
    ghost var b := p.pieceMap;
    var changed := p.SetPiecePriority(0, 0);
    NoView(p);
    var options := Options(false, false, false, prefer, true, false, false);
    var request := Request([true], 1, Slow, 0, options);
    ghost var s := SnapshotOf(p);
    FilteredSnapshot(p, s);
    FilteredFree(a, b, s, request);
    result := PickPieces.PickPieces(p, request, [], 3, [], 1);
    assert PieceBlock(0, 1).piece == 0;
  }

  lemma FilteredSnapshot(p: P.Picker, s: Snapshot)
    requires p.Valid() && s == SnapshotOf(p)
    ensures s.Ok() && s == Snapshot(p.pieceMap, p.downloads, p.slabs, p.blocksPerPiece, p.blocksInLast)
    ensures AllPieces([], |p.pieceMap|)
  {
    hide B.Clean, C.CursorsOk, C.Total, QueueBut;
  }

  /** What the calls below make of the blocks of a piece of two: with the second one requested too, all are active. */
  lemma Views(v1: PieceView) returns (v2: PieceView, v3: PieceView, v4: PieceView)
    requires |BlocksOf(NotDownloading, 2)| == 2 && v1 == Completed(NotDownloading, 2, 0, 0)
    ensures |BlocksOf(v1, 2)| == |BlocksOf(v2, 2)| == |BlocksOf(v3, 2)| == 2
    ensures v2 == Requested(v1, 2, 1, 1, Slow) && v3 == Written(v2, 2, 1, 1) && v4 == Completed(v3, 2, 1, 1)
    ensures BlocksOf(v1, 2)[1].state == StateNone && FullNow(v2, 2)
    ensures v1.PieceView? && v2.PieceView? && v3.PieceView? && v4.PieceView? && v3.blocks[1].state == StateWriting
  {
    var start := BlocksOf(NotDownloading, 2);
    CountNone(start, StateRequested);
    CountNone(start, StateWriting);
    CountNone(start, StateFinished);
    ActiveUpdate(start, 0, BlockInfo(0, 0, StateFinished));
    ActiveUpdate(v1.blocks, 1, BlockInfo(1, v1.blocks[1].numPeers + 1, StateRequested));
    v2 := Requested(v1, 2, 1, 1, Slow);
    v3 := Written(v2, 2, 1, 1);
    v4 := Completed(v3, 2, 1, 1);
  }

  /** A record after a change of its downloading and full flags. */
  lemma Flags(a: seq<PiecePos>, b: seq<PiecePos>, downloading: bool, full: bool)
    requires |a| == 1 && MovedOnly(a[0 := a[0].(downloading := downloading, full := full)], b)
    ensures |b| == 1 && b[0].downloading == downloading && b[0].full == full
    ensures b[0].Have() == a[0].Have() && b[0].Filtered() == a[0].Filtered()
  {
    assert b[0].SameButIndex(a[0 := a[0].(downloading := downloading, full := full)][0]);
  }

  /** The second of two blocks is free, of a piece that is marked full all the same. */
  lemma MarkedFull(s: Snapshot, request: Request)
    requires s.Ok() && s.blocksPerPiece == s.blocksInLast == 2 && |s.pieceMap| == 1
    requires !s.pieceMap[0].Have() && !s.pieceMap[0].Filtered() && s.pieceMap[0].downloading && s.pieceMap[0].full
    requires |BlocksOf(NotDownloading, 2)| == 2 && View(s.downloads, s.slabs, 0) == Completed(NotDownloading, 2, 0, 0)
    requires request.bits == [true] && !request.options.onParole && request.options.sequential && request.whole == 0
    ensures var q := Effective(request, |s.downloads|, 1);
      && Free(s, q, PieceBlock(0, 1)) && (Offer(s, q, PieceBlock(0, 1)) <==> request.options.prioritizePartials)
      && Ordered(q) && Reachable(q, s.pieceMap[0], 0) && Apart(s, q) && Distinct([])
      && forall seeds: nat :: Reachable(q, s.pieceMap[0], seeds)
  {
    FlaggedRange(s.downloads, s.pieceMap);
    assert Sorted(s.downloads);
    Pigeonhole(seq(|s.downloads|, k requires 0 <= k < |s.downloads| => s.downloads[k].index), 1);
  }

  /** Three blocks asked for where there are two. */
  lemma TooFew(s: Snapshot, q: Request, result: seq<PieceBlock>)
    requires s.Ok() && |s.pieceMap| == |q.bits| == 1 && s.blocksPerPiece == 2
    requires Picked(s, q, [], result) && DistinctBlocks(result)
    ensures Short([], 3, result)
  {
    InRange(s, q, result);
    AtMostAll(result, 1, 2);
  }

  lemma FreshPiece(a: seq<PiecePos>)
    requires P.Reset([], a, 1)
    ensures |a| == 1 && !a[0].Have() && !a[0].Filtered()
  {
  }

  /** A piece of two blocks is received, fails its hash check and is begun again with one block from disk. It is still
      marked full, so a pick does not list its free block unless partial pieces come first. */
  method FullHidden(prefer: bool) returns (result: seq<PieceBlock>)
    ensures PieceBlock(0, 1) in result <==> prefer
  {
    hide *;
    var p := new P.Picker();
    NoView(p);
    p.Init(2, 0, 1);
    NoView(p);
    FreshPiece(p.pieceMap);
    ghost var a := p.pieceMap;
    p.MarkAsFinished(0, 0, 0);
    NoView(p);
    ghost var v1 := p.ViewOf(0);
    Flags(a, p.pieceMap, true, a[0].full);
    a := p.pieceMap;
    ghost var v2, v3, v4 := Views(v1);
    var ok := p.MarkAsDownloading(0, 1, 1, Slow);
    NoView(p);
    Flags(a, p.pieceMap, true, p.pieceMap[0].full);
    a := p.pieceMap;
    ok := p.MarkAsWriting(0, 1, 1);
    NoView(p);
    Flags(a, p.pieceMap, true, p.pieceMap[0].full);
    a := p.pieceMap;
    p.MarkAsFinished(0, 1, 1);
    NoView(p);
    Flags(a, p.pieceMap, true, a[0].full);
    a := p.pieceMap;
    p.RestorePiece(0);
    NoView(p);
    Flags(a, p.pieceMap, false, a[0].full);
    a := p.pieceMap;
    p.MarkAsFinished(0, 0, 0);
    NoView(p);
    Flags(a, p.pieceMap, true, a[0].full);
    var options := Options(false, false, false, prefer, true, false, false);
    var request := Request([true], 1, Slow, 0, options);
    ghost var s := SnapshotOf(p);
    FilteredSnapshot(p, s);
    MarkedFull(s, request);
    ghost var q := Effective(request, |s.downloads|, 1);
    result := PickPieces.PickPieces(p, request, [], 3, [], 1);
    assert result[0..] == result;
    TooFew(s, q, result);
  }
}
