/** The full flag of a downloading piece: it may lag behind, but only on a piece of which nothing is requested. */
module FullFlags {
  import opened PieceTypes
  import opened Downloads

  /** A piece marked full has every block active, or no block requested. */
  ghost predicate FullFine(full: bool, v: PieceView, num: nat) {
    full && v.PieceView? ==> FullNow(v, num) || CountState(v.blocks, StateRequested) == 0
  }

  ghost predicate FullOk(downloads: seq<DownloadingPiece>, slabs: seq<seq<BlockInfo>>, pieceMap: seq<PiecePos>,
                         blocksPerPiece: nat, blocksInLast: nat) {
    forall i | 0 <= i < |pieceMap| && pieceMap[i].downloading ::
      FullFine(pieceMap[i].full, View(downloads, slabs, i), BlocksIn(|pieceMap|, i, blocksPerPiece, blocksInLast))
  }

  lemma FullAt(downloads: seq<DownloadingPiece>, slabs: seq<seq<BlockInfo>>, pieceMap: seq<PiecePos>,
               blocksPerPiece: nat, blocksInLast: nat, i: nat)
    requires FullOk(downloads, slabs, pieceMap, blocksPerPiece, blocksInLast) && i < |pieceMap| && pieceMap[i].downloading
    ensures FullFine(pieceMap[i].full, View(downloads, slabs, i), BlocksIn(|pieceMap|, i, blocksPerPiece, blocksInLast))
  {
  }

  /** An operation on one piece leaves the others as they were. */
  lemma FullElsewhere(downloads: seq<DownloadingPiece>, slabs: seq<seq<BlockInfo>>, a: seq<PiecePos>,
                      downloads': seq<DownloadingPiece>, slabs': seq<seq<BlockInfo>>, b: seq<PiecePos>,
                      blocksPerPiece: nat, blocksInLast: nat, piece: nat, p: PiecePos)
    requires FullOk(downloads, slabs, a, blocksPerPiece, blocksInLast) && piece < |a|
    requires MovedOnly(a[piece := p], b) && SameElsewhere(downloads, slabs, downloads', slabs', piece)
    requires p.downloading ==>
               FullFine(p.full, View(downloads', slabs', piece), BlocksIn(|a|, piece, blocksPerPiece, blocksInLast))
    ensures FullOk(downloads', slabs', b, blocksPerPiece, blocksInLast)
  {
    hide View, FullFine;
    forall i | 0 <= i < |b| && b[i].downloading
      ensures FullFine(b[i].full, View(downloads', slabs', i), BlocksIn(|b|, i, blocksPerPiece, blocksInLast))
    {
      assert b[i].SameButIndex(a[piece := p][i]);
      if i != piece {
        FullAt(downloads, slabs, a, blocksPerPiece, blocksInLast, i);
      }
    }
  }

  lemma FullNone(pieceMap: seq<PiecePos>, blocksPerPiece: nat, blocksInLast: nat)
    requires forall i | 0 <= i < |pieceMap| :: !pieceMap[i].downloading
    ensures FullOk([], [], pieceMap, blocksPerPiece, blocksInLast)
  {
  }

  /** Only flags and downloading status matter. */
  lemma FullMoved(downloads: seq<DownloadingPiece>, slabs: seq<seq<BlockInfo>>, a: seq<PiecePos>, b: seq<PiecePos>,
                  blocksPerPiece: nat, blocksInLast: nat)
    requires FullOk(downloads, slabs, a, blocksPerPiece, blocksInLast) && |b| == |a|
    requires forall i | 0 <= i < |a| :: b[i].full == a[i].full && (b[i].downloading ==> a[i].downloading)
    ensures FullOk(downloads, slabs, b, blocksPerPiece, blocksInLast)
  {
    hide View, FullFine;
    forall i | 0 <= i < |b| && b[i].downloading
      ensures FullFine(b[i].full, View(downloads, slabs, i), BlocksIn(|b|, i, blocksPerPiece, blocksInLast))
    {
      FullAt(downloads, slabs, a, blocksPerPiece, blocksInLast, i);
    }
  }

  lemma {:induction false} ActiveAtMost(blocks: seq<BlockInfo>, num: nat)
    requires forall j | num <= j < |blocks| :: blocks[j].state == StateNone
    ensures Active(blocks) <= num
  {
    if |blocks| > 0 {
      var last := |blocks| - 1;
      ActiveAtMost(blocks[..last], if num > last then last else num);
    }
  }

  function On(s: BlockState): int {
    if s == StateNone then 0 else 1
  }

  /** One block changes: the number of active and of requested blocks follow. */
  lemma ActiveUpdate(blocks: seq<BlockInfo>, j: nat, b: BlockInfo)
    requires j < |blocks|
    ensures Active(blocks[j := b]) == Active(blocks) - On(blocks[j].state) + On(b.state)
    ensures CountState(blocks[j := b], StateRequested)
            == CountState(blocks, StateRequested) - One(blocks[j].state == StateRequested) + One(b.state == StateRequested)
    ensures blocks[j].state == StateRequested ==> CountState(blocks, StateRequested) > 0
  {
    CountUpdate(blocks, j, b, StateRequested);
    CountUpdate(blocks, j, b, StateWriting);
    CountUpdate(blocks, j, b, StateFinished);
    CountSome(blocks, j);
  }

  /** A piece with a free block is not full. */
  lemma FreeNotFull(v: PieceView, num: nat, j: nat)
    requires ViewOk(v, num) && v.PieceView? && j < num && j < |v.blocks| && v.blocks[j].state == StateNone
    ensures !FullNow(v, num)
  {
    var blocks := v.blocks[j := BlockInfo(0, 0, StateWriting)];
    ActiveUpdate(v.blocks, j, BlockInfo(0, 0, StateWriting));
    ActiveAtMost(blocks, num);
  }

  /** Nothing of a piece that starts with an arrival is requested. */
  lemma StartedFine(full: bool, num: nat, blocksPerPiece: nat, j: nat, b: BlockInfo, speed: Speed)
    requires j < blocksPerPiece && b.state != StateRequested
    ensures FullFine(full, PieceView(speed, FreshBlocks(blocksPerPiece)[j := b]), num)
  {
    CountNone(FreshBlocks(blocksPerPiece), StateRequested);
    ActiveUpdate(FreshBlocks(blocksPerPiece), j, b);
  }

  /** A step that makes a free block arrive, or moves a block on, leaves the flag fine as it is. */
  lemma MovedOnFine(full: bool, v: PieceView, num: nat, j: nat, b: BlockInfo, speed: Speed)
    requires ViewOk(v, num) && v.PieceView? && FullFine(full, v, num) && j < num && j < |v.blocks|
    requires b.state == v.blocks[j].state || (b.state != StateNone && b.state != StateRequested)
    ensures FullFine(full, PieceView(speed, v.blocks[j := b]), num)
  {
    ActiveUpdate(v.blocks, j, b);
    if v.blocks[j].state == StateNone { FreeNotFull(v, num, j); }
    hide ViewOk, CountState, Active;
  }

  lemma RequestedFine(full: bool, full': bool, v: PieceView, num: nat, blocksPerPiece: nat, j: nat, peer: nat, speed: Speed)
    requires ViewOk(v, num) && (v.PieceView? ==> FullFine(full, v, num)) && j < num && j < |BlocksOf(v, blocksPerPiece)|
    requires full' <==>
               if BlocksOf(v, blocksPerPiece)[j].state == StateNone then FullNow(Requested(v, blocksPerPiece, j, peer, speed), num)
               else full
    ensures FullFine(full', Requested(v, blocksPerPiece, j, peer, speed), num)
  {
    hide ViewOk, FullNow;
    if BlocksOf(v, blocksPerPiece)[j].state == StateRequested {
      var b := v.blocks[j];
      MovedOnFine(full, v, num, j, BlockInfo(peer, b.numPeers + 1, StateRequested), if v.speed == SpeedNone then speed else v.speed);
    }
  }

  lemma WrittenFine(full: bool, full': bool, v: PieceView, num: nat, blocksPerPiece: nat, j: nat, peer: nat)
    requires ViewOk(v, num) && (v.PieceView? ==> FullFine(full, v, num)) && j < num && j < |BlocksOf(v, blocksPerPiece)|
    requires full' <==> if v.NotDownloading? then FullNow(Written(v, blocksPerPiece, j, peer), num) else full
    ensures FullFine(full', Written(v, blocksPerPiece, j, peer), num)
  {
    if v.PieceView? {
      var b := v.blocks[j];
      MovedOnFine(full, v, num, j, b.(peer := peer), v.speed);
      MovedOnFine(full, v, num, j, BlockInfo(peer, 0, StateWriting), v.speed);
      MovedOnFine(full, v, num, j, BlockInfo(peer, 0, StateWriting), SpeedNone);
    }
    hide ViewOk, Active, CountState;
  }

  lemma CompletedFine(full: bool, v: PieceView, num: nat, blocksPerPiece: nat, j: nat, peer: nat)
    requires ViewOk(v, num) && (v.PieceView? ==> FullFine(full, v, num)) && j < num && j < |BlocksOf(v, blocksPerPiece)|
    ensures FullFine(full, Completed(v, blocksPerPiece, j, peer), num)
  {
    if v.PieceView? {
      MovedOnFine(full, v, num, j, BlockInfo(peer, 0, StateFinished), v.speed);
    } else {
      StartedFine(full, num, blocksPerPiece, j, BlockInfo(peer, 0, StateFinished), SpeedNone);
    }
    hide ViewOk, FullFine;
  }

  lemma FailedFine(full: bool, full': bool, v: PieceView, num: nat, j: nat)
    requires (v.PieceView? ==> FullFine(full, v, num) && j < |v.blocks| && Received(v.blocks[j]))
    requires full' <==> if v.PieceView? && v.blocks[j].state == StateWriting then FullNow(Failed(v, j), num) else full
    ensures FullFine(full', Failed(v, j), num)
  {
  }

  lemma AbortedFine(full: bool, full': bool, v: PieceView, num: nat, j: nat, peer: nat)
    requires ViewOk(v, num) && (v.PieceView? ==> FullFine(full, v, num) && j < num && j < |v.blocks|)
    requires full' <==>
               if v.PieceView? && v.blocks[j].state == StateRequested && v.blocks[j].numPeers <= 1
               then FullNow(Aborted(v, j, peer), num) else full
    ensures FullFine(full', Aborted(v, j, peer), num)
  {
    hide ViewOk, FullNow;
    if v.PieceView? && v.blocks[j].state == StateRequested && v.blocks[j].numPeers > 1 {
      var b := v.blocks[j];
      MovedOnFine(full, v, num, j, b.(numPeers := b.numPeers - 1, peer := if b.peer == peer then 0 else b.peer), v.speed);
    }
  }

  lemma QueueView(downloads: seq<DownloadingPiece>, slabs: seq<seq<BlockInfo>>, pieceMap: seq<PiecePos>,
                  blocksPerPiece: nat, blocksInLast: nat, piece: nat)
    requires QueueOk(downloads, slabs, pieceMap, blocksPerPiece, blocksInLast) && piece < |pieceMap|
    ensures var v := View(downloads, slabs, piece);
      && ViewOk(v, BlocksIn(|pieceMap|, piece, blocksPerPiece, blocksInLast)) && (v.PieceView? <==> pieceMap[piece].downloading)
      && (v.PieceView? ==> |v.blocks| == blocksPerPiece >= BlocksIn(|pieceMap|, piece, blocksPerPiece, blocksInLast))
  {
    QueueAt(downloads, slabs, pieceMap, blocksPerPiece, blocksInLast, piece);
    hide PieceOk, View, Sorted, QueueBut, CountState;
  }

  /** The flags after a request. */
  lemma FullRequested(downloads: seq<DownloadingPiece>, slabs: seq<seq<BlockInfo>>, a: seq<PiecePos>,
                      downloads': seq<DownloadingPiece>, slabs': seq<seq<BlockInfo>>, b: seq<PiecePos>,
                      blocksPerPiece: nat, blocksInLast: nat, piece: nat, j: nat, peer: nat, speed: Speed)
    requires QueueOk(downloads, slabs, a, blocksPerPiece, blocksInLast) && piece < |a| == |b|
    requires j < BlocksIn(|a|, piece, blocksPerPiece, blocksInLast) && j < |BlocksOf(View(downloads, slabs, piece), blocksPerPiece)|
    requires SameElsewhere(downloads, slabs, downloads', slabs', piece)
    requires View(downloads', slabs', piece) == Requested(View(downloads, slabs, piece), blocksPerPiece, j, peer, speed)
    requires MovedOnly(a[piece := a[piece].(downloading := true, full := b[piece].full)], b)
    requires b[piece].full <==>
               if BlocksOf(View(downloads, slabs, piece), blocksPerPiece)[j].state == StateNone
               then FullNow(View(downloads', slabs', piece), BlocksIn(|a|, piece, blocksPerPiece, blocksInLast)) else a[piece].full
    ensures FullOk(downloads, slabs, a, blocksPerPiece, blocksInLast) ==> FullOk(downloads', slabs', b, blocksPerPiece, blocksInLast)
  {
    var num, v := BlocksIn(|a|, piece, blocksPerPiece, blocksInLast), View(downloads, slabs, piece);
    QueueView(downloads, slabs, a, blocksPerPiece, blocksInLast, piece);
    hide *;
    if FullOk(downloads, slabs, a, blocksPerPiece, blocksInLast) {
      if a[piece].downloading { FullAt(downloads, slabs, a, blocksPerPiece, blocksInLast, piece); }
      RequestedFine(a[piece].full, b[piece].full, v, num, blocksPerPiece, j, peer, speed);
      FullElsewhere(downloads, slabs, a, downloads', slabs', b, blocksPerPiece, blocksInLast, piece, a[piece].(downloading := true, full := b[piece].full));
    }
  }

  /** The flags after an arrival. */
  lemma FullWritten(downloads: seq<DownloadingPiece>, slabs: seq<seq<BlockInfo>>, a: seq<PiecePos>,
                    downloads': seq<DownloadingPiece>, slabs': seq<seq<BlockInfo>>, b: seq<PiecePos>,
                    blocksPerPiece: nat, blocksInLast: nat, piece: nat, j: nat, peer: nat)
    requires QueueOk(downloads, slabs, a, blocksPerPiece, blocksInLast) && piece < |a| == |b|
    requires j < BlocksIn(|a|, piece, blocksPerPiece, blocksInLast) && j < |BlocksOf(View(downloads, slabs, piece), blocksPerPiece)|
    requires SameElsewhere(downloads, slabs, downloads', slabs', piece)
    requires View(downloads', slabs', piece) == Written(View(downloads, slabs, piece), blocksPerPiece, j, peer)
    requires MovedOnly(a[piece := a[piece].(downloading := true, full := b[piece].full)], b)
    requires b[piece].full <==>
               if !a[piece].downloading
               then FullNow(View(downloads', slabs', piece), BlocksIn(|a|, piece, blocksPerPiece, blocksInLast)) else a[piece].full
    ensures FullOk(downloads, slabs, a, blocksPerPiece, blocksInLast) ==> FullOk(downloads', slabs', b, blocksPerPiece, blocksInLast)
  {
    var num, v := BlocksIn(|a|, piece, blocksPerPiece, blocksInLast), View(downloads, slabs, piece);
    QueueView(downloads, slabs, a, blocksPerPiece, blocksInLast, piece);
    hide *;
    if FullOk(downloads, slabs, a, blocksPerPiece, blocksInLast) {
      if a[piece].downloading { FullAt(downloads, slabs, a, blocksPerPiece, blocksInLast, piece); }
      WrittenFine(a[piece].full, b[piece].full, v, num, blocksPerPiece, j, peer);
      FullElsewhere(downloads, slabs, a, downloads', slabs', b, blocksPerPiece, blocksInLast, piece, a[piece].(downloading := true, full := b[piece].full));
    }
  }

  /** The flags after a block reached the disk. */
  lemma FullCompleted(downloads: seq<DownloadingPiece>, slabs: seq<seq<BlockInfo>>, a: seq<PiecePos>,
                      downloads': seq<DownloadingPiece>, slabs': seq<seq<BlockInfo>>, b: seq<PiecePos>,
                      blocksPerPiece: nat, blocksInLast: nat, piece: nat, j: nat, peer: nat)
    requires QueueOk(downloads, slabs, a, blocksPerPiece, blocksInLast) && piece < |a| == |b|
    requires j < BlocksIn(|a|, piece, blocksPerPiece, blocksInLast) && j < |BlocksOf(View(downloads, slabs, piece), blocksPerPiece)|
    requires SameElsewhere(downloads, slabs, downloads', slabs', piece)
    requires View(downloads', slabs', piece) == Completed(View(downloads, slabs, piece), blocksPerPiece, j, peer)
    requires MovedOnly(a[piece := a[piece].(downloading := true)], b)
    ensures FullOk(downloads, slabs, a, blocksPerPiece, blocksInLast) ==> FullOk(downloads', slabs', b, blocksPerPiece, blocksInLast)
  {
    var num, v := BlocksIn(|a|, piece, blocksPerPiece, blocksInLast), View(downloads, slabs, piece);
    QueueView(downloads, slabs, a, blocksPerPiece, blocksInLast, piece);
    hide *;
    if FullOk(downloads, slabs, a, blocksPerPiece, blocksInLast) {
      if a[piece].downloading { FullAt(downloads, slabs, a, blocksPerPiece, blocksInLast, piece); }
      CompletedFine(a[piece].full, v, num, blocksPerPiece, j, peer);
      FullElsewhere(downloads, slabs, a, downloads', slabs', b, blocksPerPiece, blocksInLast, piece, a[piece].(downloading := true));
    }
  }

  /** The flags after a failed write. */
  lemma FullFailed(downloads: seq<DownloadingPiece>, slabs: seq<seq<BlockInfo>>, a: seq<PiecePos>,
                   downloads': seq<DownloadingPiece>, slabs': seq<seq<BlockInfo>>, b: seq<PiecePos>,
                   blocksPerPiece: nat, blocksInLast: nat, piece: nat, j: nat)
    requires QueueOk(downloads, slabs, a, blocksPerPiece, blocksInLast) && piece < |a| == |b|
    requires j < BlocksIn(|a|, piece, blocksPerPiece, blocksInLast) && j < |BlocksOf(View(downloads, slabs, piece), blocksPerPiece)|
    requires SameElsewhere(downloads, slabs, downloads', slabs', piece)
    requires View(downloads, slabs, piece).PieceView? ==> Received(BlocksOf(View(downloads, slabs, piece), blocksPerPiece)[j])
    requires View(downloads, slabs, piece).PieceView? ==> j < |View(downloads, slabs, piece).blocks|
    requires View(downloads', slabs', piece) == Failed(View(downloads, slabs, piece), j)
    requires MovedOnly(a[piece := a[piece].(downloading := View(downloads', slabs', piece).PieceView?, full := b[piece].full)], b)
    requires b[piece].full <==>
               if View(downloads, slabs, piece).PieceView? && View(downloads, slabs, piece).blocks[j].state == StateWriting
               then FullNow(View(downloads', slabs', piece), BlocksIn(|a|, piece, blocksPerPiece, blocksInLast)) else a[piece].full
    ensures FullOk(downloads, slabs, a, blocksPerPiece, blocksInLast) ==> FullOk(downloads', slabs', b, blocksPerPiece, blocksInLast)
  {
    var num, v := BlocksIn(|a|, piece, blocksPerPiece, blocksInLast), View(downloads, slabs, piece);
    QueueView(downloads, slabs, a, blocksPerPiece, blocksInLast, piece);
    hide *;
    if FullOk(downloads, slabs, a, blocksPerPiece, blocksInLast) {
      if a[piece].downloading { FullAt(downloads, slabs, a, blocksPerPiece, blocksInLast, piece); }
      OfView(v, blocksPerPiece);
      FailedFine(a[piece].full, b[piece].full, v, num, j);
      FullElsewhere(downloads, slabs, a, downloads', slabs', b, blocksPerPiece, blocksInLast, piece, a[piece].(downloading := View(downloads', slabs', piece).PieceView?, full := b[piece].full));
    }
  }

  /** The flags after a dropped request. */
  lemma FullAborted(downloads: seq<DownloadingPiece>, slabs: seq<seq<BlockInfo>>, a: seq<PiecePos>,
                    downloads': seq<DownloadingPiece>, slabs': seq<seq<BlockInfo>>, b: seq<PiecePos>,
                    blocksPerPiece: nat, blocksInLast: nat, piece: nat, j: nat, peer: nat)
    requires QueueOk(downloads, slabs, a, blocksPerPiece, blocksInLast) && piece < |a| == |b|
    requires j < BlocksIn(|a|, piece, blocksPerPiece, blocksInLast) && j < |BlocksOf(View(downloads, slabs, piece), blocksPerPiece)|
    requires SameElsewhere(downloads, slabs, downloads', slabs', piece)
    requires View(downloads, slabs, piece).PieceView? ==> j < |View(downloads, slabs, piece).blocks|
    requires View(downloads', slabs', piece) == Aborted(View(downloads, slabs, piece), j, peer)
    requires MovedOnly(a[piece := a[piece].(downloading := View(downloads', slabs', piece).PieceView?, full := b[piece].full)], b)
    requires b[piece].full <==>
               if View(downloads, slabs, piece).PieceView? && View(downloads, slabs, piece).blocks[j].state == StateRequested
                  && View(downloads, slabs, piece).blocks[j].numPeers <= 1
               then FullNow(View(downloads', slabs', piece), BlocksIn(|a|, piece, blocksPerPiece, blocksInLast)) else a[piece].full
    ensures FullOk(downloads, slabs, a, blocksPerPiece, blocksInLast) ==> FullOk(downloads', slabs', b, blocksPerPiece, blocksInLast)
  {
    var num, v := BlocksIn(|a|, piece, blocksPerPiece, blocksInLast), View(downloads, slabs, piece);
    QueueView(downloads, slabs, a, blocksPerPiece, blocksInLast, piece);
    hide *;
    if FullOk(downloads, slabs, a, blocksPerPiece, blocksInLast) {
      if a[piece].downloading { FullAt(downloads, slabs, a, blocksPerPiece, blocksInLast, piece); }
      AbortedFine(a[piece].full, b[piece].full, v, num, j, peer);
      FullElsewhere(downloads, slabs, a, downloads', slabs', b, blocksPerPiece, blocksInLast, piece, a[piece].(downloading := View(downloads', slabs', piece).PieceView?, full := b[piece].full));
    }
  }

  lemma OfView(v: PieceView, blocksPerPiece: nat)
    ensures v.PieceView? ==> BlocksOf(v, blocksPerPiece) == v.blocks
  {
  }

  /** The flags when a piece stopped downloading. */
  lemma FullStopped(downloads: seq<DownloadingPiece>, slabs: seq<seq<BlockInfo>>, a: seq<PiecePos>,
                    downloads': seq<DownloadingPiece>, slabs': seq<seq<BlockInfo>>, b: seq<PiecePos>,
                    blocksPerPiece: nat, blocksInLast: nat, piece: nat, p: PiecePos)
    requires piece < |a| && !p.downloading
    requires SameElsewhere(downloads, slabs, downloads', slabs', piece) && MovedOnly(a[piece := p], b)
    ensures FullOk(downloads, slabs, a, blocksPerPiece, blocksInLast) ==> FullOk(downloads', slabs', b, blocksPerPiece, blocksInLast)
  {
    hide *;
    if FullOk(downloads, slabs, a, blocksPerPiece, blocksInLast) {
      FullElsewhere(downloads, slabs, a, downloads', slabs', b, blocksPerPiece, blocksInLast, piece, p);
    }
  }

  /** A change of one record that keeps its flag and does not start a download. */
  lemma FullKept(downloads: seq<DownloadingPiece>, slabs: seq<seq<BlockInfo>>, a: seq<PiecePos>, b: seq<PiecePos>,
                 blocksPerPiece: nat, blocksInLast: nat, i: nat, p: PiecePos)
    requires i < |a| && MovedOnly(a[i := p], b) && p.full == a[i].full && (p.downloading ==> a[i].downloading)
    ensures FullOk(downloads, slabs, a, blocksPerPiece, blocksInLast) ==> FullOk(downloads, slabs, b, blocksPerPiece, blocksInLast)
  {
    hide FullOk;
    if FullOk(downloads, slabs, a, blocksPerPiece, blocksInLast) {
      forall k | 0 <= k < |a|
        ensures b[k].full == a[k].full && (b[k].downloading ==> a[k].downloading)
      {
        assert b[k].SameButIndex(a[i := p][k]);
      }
      FullMoved(downloads, slabs, a, b, blocksPerPiece, blocksInLast);
    }
  }
}
