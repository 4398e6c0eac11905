/** The pieces being downloaded: a list sorted by piece index whose block records live in a compact slab store. */
module Downloads {
  import opened PieceTypes
  import CountingSort

  /** How fast the peers on a piece are; SpeedNone when no block of it is requested. */
  datatype Speed = SpeedNone | Slow | Medium | Fast

  datatype BlockState = StateNone | StateRequested | StateWriting | StateFinished

  /** One block: the last peer (0 when none), how many peers have it queued, and its state. */
  datatype BlockInfo = BlockInfo(peer: nat, numPeers: nat, state: BlockState)

  const NEW_BLOCK := BlockInfo(0, 0, StateNone)

  /** One downloading piece. `info` is the number of the slab that holds its block records. */
  datatype DownloadingPiece = DownloadingPiece(
    speed: Speed,
    index: int,
    info: nat,
    finished: int,
    writing: int,
    requested: int
  )

  /** What can be observed of a downloading piece: its speed and its block records. */
  datatype PieceView = NotDownloading | PieceView(speed: Speed, blocks: seq<BlockInfo>)

  ghost function CountState(blocks: seq<BlockInfo>, state: BlockState): (c: nat)
    ensures c <= |blocks|
  {
    if |blocks| == 0 then 0
    else CountState(blocks[..|blocks| - 1], state) + if blocks[|blocks| - 1].state == state then 1 else 0
  }

  lemma {:induction false} CountUpdate(blocks: seq<BlockInfo>, j: nat, b: BlockInfo, state: BlockState)
    requires j < |blocks|
    ensures CountState(blocks[j := b], state) ==
            CountState(blocks, state) - (if blocks[j].state == state then 1 else 0) + (if b.state == state then 1 else 0)
  {
    var n := |blocks| - 1;
    if j == n {
      assert blocks[j := b][..n] == blocks[..n];
    } else {
      CountUpdate(blocks[..n], j, b, state);
      assert blocks[j := b][..n] == blocks[..n][j := b];
    }
  }

  lemma {:induction false} CountNone(blocks: seq<BlockInfo>, state: BlockState)
    requires forall j | 0 <= j < |blocks| :: blocks[j].state != state
    ensures CountState(blocks, state) == 0
  {
    if |blocks| > 0 {
      CountNone(blocks[..|blocks| - 1], state);
    }
  }

  lemma {:induction false} CountSome(blocks: seq<BlockInfo>, j: nat)
    requires j < |blocks|
    ensures CountState(blocks, blocks[j].state) > 0
  {
    if j < |blocks| - 1 {
      CountSome(blocks[..|blocks| - 1], j);
    }
  }

  /** The counters and the speed of a piece describe its blocks; only its first `num` blocks exist. */
  ghost predicate PieceOk(d: DownloadingPiece, blocks: seq<BlockInfo>, num: nat) {
    && num <= |blocks|
    && d.requested == CountState(blocks, StateRequested)
    && d.writing == CountState(blocks, StateWriting)
    && d.finished == CountState(blocks, StateFinished)
    && (d.speed != SpeedNone <==> d.requested > 0)
    && (forall j | 0 <= j < |blocks| :: blocks[j].numPeers > 0 <==> blocks[j].state == StateRequested)
    && (forall j | num <= j < |blocks| :: blocks[j].state == StateNone)
    && (forall j | 0 <= j < |blocks| && blocks[j].state == StateNone :: blocks[j].peer == 0)
  }

  /** The list is sorted and its n pieces own slabs 0..n-1, one each. */
  ghost predicate Layout(downloads: seq<DownloadingPiece>, slabs: seq<seq<BlockInfo>>, blocksPerPiece: nat) {
    && |downloads| <= |slabs|
    && (forall s | 0 <= s < |slabs| :: |slabs[s]| == blocksPerPiece)
    && (forall k | 0 <= k < |downloads| :: downloads[k].info < |downloads|)
    && (forall j, k | 0 <= j < k < |downloads| :: downloads[j].index < downloads[k].index)
    && (forall j, k | 0 <= j < k < |downloads| :: downloads[j].info != downloads[k].info)
  }

  /** Where a piece is in the list, or -1. */
  ghost function Find(downloads: seq<DownloadingPiece>, piece: int): (k: int)
    ensures -1 <= k < |downloads|
    ensures k >= 0 ==> downloads[k].index == piece
    ensures k == -1 ==> forall j | 0 <= j < |downloads| :: downloads[j].index != piece
  {
    if |downloads| == 0 then -1
    else if downloads[|downloads| - 1].index == piece then |downloads| - 1
    else Find(downloads[..|downloads| - 1], piece)
  }

  ghost function View(downloads: seq<DownloadingPiece>, slabs: seq<seq<BlockInfo>>, piece: int): PieceView {
    var k := Find(downloads, piece);
    if k == -1 || downloads[k].info >= |slabs| then NotDownloading
    else PieceView(downloads[k].speed, slabs[downloads[k].info])
  }

  /** The downloading flags of the piece map say which pieces are in the list; none of those is complete. */
  ghost predicate Flagged(downloads: seq<DownloadingPiece>, pieceMap: seq<PiecePos>) {
    && (forall k | 0 <= k < |downloads| ::
          0 <= downloads[k].index < |pieceMap| && pieceMap[downloads[k].index].downloading
          && !pieceMap[downloads[k].index].Have())
    && (forall i | 0 <= i < |pieceMap| && pieceMap[i].downloading :: Find(downloads, i) != -1)
  }

  /** The number of blocks of a piece: the last piece may be shorter. */
  function BlocksIn(numPieces: nat, piece: int, blocksPerPiece: nat, blocksInLast: nat): nat {
    if piece + 1 == numPieces then blocksInLast else blocksPerPiece
  }

  /** Every listed piece but `except` has consistent counters and at least one block in progress or done. */
  ghost predicate Counters(downloads: seq<DownloadingPiece>, slabs: seq<seq<BlockInfo>>,
                           numPieces: nat, blocksPerPiece: nat, blocksInLast: nat, except: int)
    requires Layout(downloads, slabs, blocksPerPiece)
  {
    forall k | 0 <= k < |downloads| && downloads[k].index != except ::
      && PieceOk(downloads[k], slabs[downloads[k].info], BlocksIn(numPieces, downloads[k].index, blocksPerPiece, blocksInLast))
      && downloads[k].requested + downloads[k].writing + downloads[k].finished > 0
  }

  /** The views of all pieces but one are the same before and after. */
  ghost predicate SameElsewhere(downloads: seq<DownloadingPiece>, slabs: seq<seq<BlockInfo>>,
                                downloads': seq<DownloadingPiece>, slabs': seq<seq<BlockInfo>>, piece: int) {
    forall p | p != piece :: View(downloads', slabs', p) == View(downloads, slabs, p)
  }

  ghost predicate Sorted(downloads: seq<DownloadingPiece>) {
    forall j, k | 0 <= j < k < |downloads| :: downloads[j].index < downloads[k].index
  }

  /** In a sorted list the position of a piece is unique. */
  lemma FindIs(downloads: seq<DownloadingPiece>, piece: int)
    requires Sorted(downloads)
    ensures forall k | 0 <= k < |downloads| && downloads[k].index == piece :: Find(downloads, piece) == k
    ensures (forall k | 0 <= k < |downloads| :: downloads[k].index != piece) ==> Find(downloads, piece) == -1
  {
  }

  /** Where each position of one list went in another: a view is kept when its record and blocks are. */
  lemma ViewMoves(downloads: seq<DownloadingPiece>, slabs: seq<seq<BlockInfo>>,
                  downloads': seq<DownloadingPiece>, slabs': seq<seq<BlockInfo>>, piece: int, k: nat, k': nat)
    requires Sorted(downloads) && Sorted(downloads')
    requires k < |downloads| && k' < |downloads'| && downloads[k].index == downloads'[k'].index == piece
    requires downloads[k].info < |slabs| && downloads'[k'].info < |slabs'|
    requires downloads[k].speed == downloads'[k'].speed && slabs[downloads[k].info] == slabs'[downloads'[k'].info]
    ensures View(downloads', slabs', piece) == View(downloads, slabs, piece)
  {
    FindIs(downloads, piece);
    FindIs(downloads', piece);
  }

  lemma ViewAbsent(downloads: seq<DownloadingPiece>, slabs: seq<seq<BlockInfo>>, piece: int)
    requires forall k | 0 <= k < |downloads| :: downloads[k].index != piece
    ensures View(downloads, slabs, piece) == NotDownloading
  {
    assert Find(downloads, piece) == -1;
  }

  lemma ViewPresent(downloads: seq<DownloadingPiece>, slabs: seq<seq<BlockInfo>>, k: nat)
    requires Sorted(downloads) && k < |downloads| && downloads[k].info < |slabs|
    ensures Find(downloads, downloads[k].index) == k
    ensures View(downloads, slabs, downloads[k].index) == PieceView(downloads[k].speed, slabs[downloads[k].info])
  {
    FindIs(downloads, downloads[k].index);
  }

  /** The block records of one listed piece may change without disturbing any other. */
  lemma UpdatePiece(downloads: seq<DownloadingPiece>, slabs: seq<seq<BlockInfo>>, k: nat,
                    d: DownloadingPiece, blocks: seq<BlockInfo>,
                    numPieces: nat, blocksPerPiece: nat, blocksInLast: nat)
    requires Layout(downloads, slabs, blocksPerPiece) && k < |downloads|
    requires Counters(downloads, slabs, numPieces, blocksPerPiece, blocksInLast, d.index)
    requires d.index == downloads[k].index && d.info == downloads[k].info && |blocks| == blocksPerPiece
    ensures Layout(downloads[k := d], slabs[d.info := blocks], blocksPerPiece)
    ensures SameElsewhere(downloads, slabs, downloads[k := d], slabs[d.info := blocks], d.index)
    ensures View(downloads[k := d], slabs[d.info := blocks], d.index) == PieceView(d.speed, blocks)
    ensures Counters(downloads[k := d], slabs[d.info := blocks], numPieces, blocksPerPiece, blocksInLast, d.index)
  {
    hide Find, View, PieceOk;
    var downloads', slabs' := downloads[k := d], slabs[d.info := blocks];
    assert Sorted(downloads) && Sorted(downloads');
    forall p | p != d.index
      ensures View(downloads', slabs', p) == View(downloads, slabs, p)
    {
      if i :| 0 <= i < |downloads| && downloads[i].index == p {
        ViewMoves(downloads, slabs, downloads', slabs', p, i, i);
      } else {
        ViewAbsent(downloads, slabs, p);
        ViewAbsent(downloads', slabs', p);
      }
    }
    ViewPresent(downloads', slabs', k);
  }

  function Inserted<T>(s: seq<T>, k: nat, x: T): (r: seq<T>)
    requires k <= |s|
    ensures |r| == |s| + 1
    ensures forall j | 0 <= j < |r| :: r[j] == if j < k then s[j] else if j == k then x else s[j - 1]
  {
    s[..k] + [x] + s[k..]
  }

  function Erased<T>(s: seq<T>, k: nat): (r: seq<T>)
    requires k < |s|
    ensures |r| == |s| - 1
    ensures forall j | 0 <= j < |r| :: r[j] == s[if j < k then j else j + 1]
  {
    s[..k] + s[k + 1..]
  }

  lemma InsertLayout(downloads: seq<DownloadingPiece>, slabs: seq<seq<BlockInfo>>, k: nat,
                     d: DownloadingPiece, slabs': seq<seq<BlockInfo>>, blocksPerPiece: nat)
    requires Layout(downloads, slabs, blocksPerPiece) && k <= |downloads|
    requires forall j | 0 <= j < k :: downloads[j].index < d.index
    requires forall j | k <= j < |downloads| :: d.index < downloads[j].index
    requires d.info == |downloads| < |slabs'|
    requires forall s | 0 <= s < |slabs'| :: |slabs'[s]| == blocksPerPiece
    ensures Layout(Inserted(downloads, k, d), slabs', blocksPerPiece)
    ensures Sorted(downloads) && Sorted(Inserted(downloads, k, d))
  {
    var downloads' := Inserted(downloads, k, d);
    forall i, j | 0 <= i < j < |downloads'|
      ensures downloads'[i].index < downloads'[j].index && downloads'[i].info != downloads'[j].info
    {
    }
  }

  lemma InsertViews(downloads: seq<DownloadingPiece>, slabs: seq<seq<BlockInfo>>, k: nat,
                    d: DownloadingPiece, slabs': seq<seq<BlockInfo>>)
    requires k <= |downloads| && Sorted(downloads) && Sorted(Inserted(downloads, k, d))
    requires forall j | 0 <= j < |downloads| :: downloads[j].info < |slabs| && downloads[j].info < |slabs'|
    requires forall j | 0 <= j < |downloads| :: slabs'[downloads[j].info] == slabs[downloads[j].info]
    requires d.info < |slabs'|
    ensures SameElsewhere(downloads, slabs, Inserted(downloads, k, d), slabs', d.index)
    ensures View(Inserted(downloads, k, d), slabs', d.index) == PieceView(d.speed, slabs'[d.info])
    ensures Find(Inserted(downloads, k, d), d.index) == k
  {
    hide Find, View, Sorted;
    var downloads' := Inserted(downloads, k, d);
    forall p | p != d.index
      ensures View(downloads', slabs', p) == View(downloads, slabs, p)
    {
      if i :| 0 <= i < |downloads| && downloads[i].index == p {
        ViewMoves(downloads, slabs, downloads', slabs', p, i, if i < k then i else i + 1);
      } else {
        ViewAbsent(downloads, slabs, p);
        forall j | 0 <= j < |downloads'|
          ensures downloads'[j].index != p
        {
          assert j != k ==> downloads'[j] == downloads[if j < k then j else j - 1];
        }
        ViewAbsent(downloads', slabs', p);
      }
    }
    ViewPresent(downloads', slabs', k);
  }

  lemma InsertCounters(downloads: seq<DownloadingPiece>, slabs: seq<seq<BlockInfo>>, k: nat,
                       d: DownloadingPiece, slabs': seq<seq<BlockInfo>>,
                       numPieces: nat, blocksPerPiece: nat, blocksInLast: nat)
    requires k <= |downloads| && Layout(downloads, slabs, blocksPerPiece)
    requires Layout(Inserted(downloads, k, d), slabs', blocksPerPiece)
    requires Counters(downloads, slabs, numPieces, blocksPerPiece, blocksInLast, -1)
    requires forall j | 0 <= j < |downloads| :: downloads[j].index >= 0
    requires forall s | 0 <= s < |downloads| :: slabs'[s] == slabs[s]
    ensures Counters(Inserted(downloads, k, d), slabs', numPieces, blocksPerPiece, blocksInLast, d.index)
  {
    hide PieceOk;
    var downloads' := Inserted(downloads, k, d);
    forall j | 0 <= j < |downloads'| && downloads'[j].index != d.index
      ensures PieceOk(downloads'[j], slabs'[downloads'[j].info],
                      BlocksIn(numPieces, downloads'[j].index, blocksPerPiece, blocksInLast))
      ensures downloads'[j].requested + downloads'[j].writing + downloads'[j].finished > 0
    {
      assert downloads'[j] == downloads[if j < k then j else j - 1];
    }
  }

  /** A new piece takes slab |downloads|, which nobody owns. */
  lemma InsertPiece(downloads: seq<DownloadingPiece>, slabs: seq<seq<BlockInfo>>, k: nat,
                    d: DownloadingPiece, slabs': seq<seq<BlockInfo>>,
                    numPieces: nat, blocksPerPiece: nat, blocksInLast: nat)
    requires Layout(downloads, slabs, blocksPerPiece) && k <= |downloads|
    requires Counters(downloads, slabs, numPieces, blocksPerPiece, blocksInLast, -1)
    requires forall j | 0 <= j < |downloads| :: downloads[j].index >= 0
    requires forall j | 0 <= j < k :: downloads[j].index < d.index
    requires forall j | k <= j < |downloads| :: d.index < downloads[j].index
    requires d.info == |downloads| < |slabs'|
    requires forall s | 0 <= s < |downloads| :: slabs'[s] == slabs[s]
    requires forall s | 0 <= s < |slabs'| :: |slabs'[s]| == blocksPerPiece
    ensures Layout(Inserted(downloads, k, d), slabs', blocksPerPiece)
    ensures SameElsewhere(downloads, slabs, Inserted(downloads, k, d), slabs', d.index)
    ensures View(Inserted(downloads, k, d), slabs', d.index) == PieceView(d.speed, slabs'[d.info])
    ensures Find(Inserted(downloads, k, d), d.index) == k
    ensures Counters(Inserted(downloads, k, d), slabs', numPieces, blocksPerPiece, blocksInLast, d.index)
  {
    hide Find, View, Sorted, SameElsewhere, Counters;
    InsertLayout(downloads, slabs, k, d, slabs', blocksPerPiece);
    InsertViews(downloads, slabs, k, d, slabs');
    InsertCounters(downloads, slabs, k, d, slabs', numPieces, blocksPerPiece, blocksInLast);
  }

  lemma SameCardinality(a: set<int>, b: set<int>)
    requires a <= b && |a| == |b|
    ensures a == b
  {
    assert b == a + (b - a);
  }

  /** Some piece owns the last slab in use. */
  lemma LastSlabOwner(downloads: seq<DownloadingPiece>, slabs: seq<seq<BlockInfo>>, blocksPerPiece: nat) returns (other: nat)
    requires Layout(downloads, slabs, blocksPerPiece) && |downloads| > 0
    ensures other < |downloads| && downloads[other].info == |downloads| - 1
  {
    var infos := seq(|downloads|, k requires 0 <= k < |downloads| => downloads[k].info as int);
    CountingSort.NoDuplicates(infos);
    SameCardinality((set x | x in infos), CountingSort.Below(|downloads|));
    assert |downloads| - 1 in infos;
    other :| 0 <= other < |downloads| && infos[other] == |downloads| - 1;
  }

  /** The list and the slabs after the last slab has been moved to where piece k's was. */
  function Compacted(downloads: seq<DownloadingPiece>, k: nat, other: nat): (r: seq<DownloadingPiece>)
    requires k < |downloads| && other < |downloads|
    ensures |r| == |downloads|
  {
    if k == other then downloads else downloads[other := downloads[other].(info := downloads[k].info)]
  }

  lemma EraseLayout(downloads: seq<DownloadingPiece>, slabs: seq<seq<BlockInfo>>, k: nat, other: nat,
                    slabs': seq<seq<BlockInfo>>, blocksPerPiece: nat)
    requires Layout(downloads, slabs, blocksPerPiece) && k < |downloads| && other < |downloads|
    requires downloads[other].info == |downloads| - 1
    requires slabs' == if k == other then slabs else slabs[downloads[k].info := slabs[downloads[other].info]]
    ensures Layout(Erased(Compacted(downloads, k, other), k), slabs', blocksPerPiece)
    ensures Sorted(downloads) && Sorted(Erased(Compacted(downloads, k, other), k))
    ensures WithoutPosition(downloads, slabs, k, Erased(Compacted(downloads, k, other), k), slabs')
  {
    hide *;
    CompactedLayout(downloads, slabs, k, other, slabs', blocksPerPiece);
    ErasedLayout(downloads, slabs, Compacted(downloads, k, other), k, slabs', blocksPerPiece);
    ErasedPositions(downloads, slabs, Compacted(downloads, k, other), k, slabs', blocksPerPiece);
  }

  /** The records but the one at k keep their order, own the slabs below the last one each, and show the same blocks. */
  ghost predicate Owners(downloads: seq<DownloadingPiece>, slabs: seq<seq<BlockInfo>>, downloads1: seq<DownloadingPiece>,
                         k: nat, slabs': seq<seq<BlockInfo>>) {
    && |slabs'| == |slabs| && |downloads1| == |downloads|
    && (forall i | 0 <= i < |downloads| :: downloads1[i] == downloads[i].(info := downloads1[i].info))
    && (forall i | 0 <= i < |downloads| && i != k ::
          && downloads1[i].info < |downloads| - 1 <= |slabs| && downloads[i].info < |slabs|
          && slabs'[downloads1[i].info] == slabs[downloads[i].info])
    && (forall i, j | 0 <= i < j < |downloads| && i != k && j != k :: downloads1[i].info != downloads1[j].info)
  }

  lemma ErasedLayout(downloads: seq<DownloadingPiece>, slabs: seq<seq<BlockInfo>>, downloads1: seq<DownloadingPiece>, k: nat,
                     slabs': seq<seq<BlockInfo>>, blocksPerPiece: nat)
    requires Layout(downloads, slabs, blocksPerPiece) && k < |downloads| && Owners(downloads, slabs, downloads1, k, slabs')
    requires forall s | 0 <= s < |slabs'| :: |slabs'[s]| == blocksPerPiece
    ensures Layout(Erased(downloads1, k), slabs', blocksPerPiece) && Sorted(downloads) && Sorted(Erased(downloads1, k))
  {
    hide Erased;
  }

  lemma ErasedPositions(downloads: seq<DownloadingPiece>, slabs: seq<seq<BlockInfo>>, downloads1: seq<DownloadingPiece>, k: nat,
                        slabs': seq<seq<BlockInfo>>, blocksPerPiece: nat)
    requires Layout(downloads, slabs, blocksPerPiece) && k < |downloads| && Owners(downloads, slabs, downloads1, k, slabs')
    ensures WithoutPosition(downloads, slabs, k, Erased(downloads1, k), slabs')
  {
    hide Erased;
  }

  /** Giving the slab of position k to the owner of the last one frees the last. */
  lemma CompactedLayout(downloads: seq<DownloadingPiece>, slabs: seq<seq<BlockInfo>>, k: nat, other: nat,
                        slabs': seq<seq<BlockInfo>>, blocksPerPiece: nat)
    requires Layout(downloads, slabs, blocksPerPiece) && k < |downloads| && other < |downloads|
    requires downloads[other].info == |downloads| - 1
    requires slabs' == if k == other then slabs else slabs[downloads[k].info := slabs[downloads[other].info]]
    ensures Owners(downloads, slabs, Compacted(downloads, k, other), k, slabs')
    ensures forall s | 0 <= s < |slabs'| :: |slabs'[s]| == blocksPerPiece
  {
  }

  /** What EraseLayout says of each position, as a relation between two lists. */
  ghost predicate WithoutPosition(downloads: seq<DownloadingPiece>, slabs: seq<seq<BlockInfo>>, k: nat,
                                  downloads': seq<DownloadingPiece>, slabs': seq<seq<BlockInfo>>) {
    && k < |downloads| && |downloads'| == |downloads| - 1
    && forall j | 0 <= j < |downloads'| ::
         var d := downloads[if j < k then j else j + 1];
         && downloads'[j] == d.(info := downloads'[j].info)
         && downloads'[j].info < |slabs'| && d.info < |slabs|
         && slabs'[downloads'[j].info] == slabs[d.info] && d.index != downloads[k].index
  }

  lemma WithoutAt(downloads: seq<DownloadingPiece>, slabs: seq<seq<BlockInfo>>, k: nat,
                  downloads': seq<DownloadingPiece>, slabs': seq<seq<BlockInfo>>, j: nat)
    requires WithoutPosition(downloads, slabs, k, downloads', slabs')
    ensures k < |downloads| && |downloads'| == |downloads| - 1
    ensures j < |downloads'| ==> var d := downloads[if j < k then j else j + 1];
      && downloads'[j].index == d.index && downloads'[j].speed == d.speed
      && downloads'[j].info < |slabs'| && d.info < |slabs|
      && slabs'[downloads'[j].info] == slabs[d.info] && d.index != downloads[k].index
  {
  }

  lemma EraseViews(downloads: seq<DownloadingPiece>, slabs: seq<seq<BlockInfo>>, k: nat,
                   downloads': seq<DownloadingPiece>, slabs': seq<seq<BlockInfo>>)
    requires WithoutPosition(downloads, slabs, k, downloads', slabs') && Sorted(downloads) && Sorted(downloads')
    ensures SameElsewhere(downloads, slabs, downloads', slabs', downloads[k].index)
    ensures View(downloads', slabs', downloads[k].index) == NotDownloading
  {
    hide Find, View, Sorted;
    forall p | p != downloads[k].index
      ensures View(downloads', slabs', p) == View(downloads, slabs, p)
    {
      hide WithoutPosition;
      if i :| 0 <= i < |downloads| && downloads[i].index == p {
        WithoutAt(downloads, slabs, k, downloads', slabs', if i < k then i else i - 1);
        ViewMoves(downloads, slabs, downloads', slabs', p, i, if i < k then i else i - 1);
      } else {
        ViewAbsent(downloads, slabs, p);
        forall j | 0 <= j < |downloads'|
          ensures downloads'[j].index != p
        {
          WithoutAt(downloads, slabs, k, downloads', slabs', j);
        }
        ViewAbsent(downloads', slabs', p);
      }
    }
    ViewAbsent(downloads', slabs', downloads[k].index);
  }

  /** Erasing a piece moves the last slab into the hole and changes no other piece's records. */
  lemma ErasePiece(downloads: seq<DownloadingPiece>, slabs: seq<seq<BlockInfo>>, k: nat, other: nat,
                   slabs': seq<seq<BlockInfo>>,
                   numPieces: nat, blocksPerPiece: nat, blocksInLast: nat)
    requires Layout(downloads, slabs, blocksPerPiece) && k < |downloads| && other < |downloads|
    requires Counters(downloads, slabs, numPieces, blocksPerPiece, blocksInLast, downloads[k].index)
    requires downloads[other].info == |downloads| - 1
    requires slabs' == if k == other then slabs else slabs[downloads[k].info := slabs[downloads[other].info]]
    ensures Layout(Erased(Compacted(downloads, k, other), k), slabs', blocksPerPiece)
    ensures SameElsewhere(downloads, slabs, Erased(Compacted(downloads, k, other), k), slabs', downloads[k].index)
    ensures View(Erased(Compacted(downloads, k, other), k), slabs', downloads[k].index) == NotDownloading
    ensures Counters(Erased(Compacted(downloads, k, other), k), slabs', numPieces, blocksPerPiece, blocksInLast, -1)
  {
    hide *;
    EraseLayout(downloads, slabs, k, other, slabs', blocksPerPiece);
    var downloads' := Erased(Compacted(downloads, k, other), k);
    EraseViews(downloads, slabs, k, downloads', slabs');
    EraseCounters(downloads, slabs, k, downloads', slabs', numPieces, blocksPerPiece, blocksInLast);
  }

  lemma EraseCounters(downloads: seq<DownloadingPiece>, slabs: seq<seq<BlockInfo>>, k: nat,
                      downloads': seq<DownloadingPiece>, slabs': seq<seq<BlockInfo>>,
                      numPieces: nat, blocksPerPiece: nat, blocksInLast: nat)
    requires Layout(downloads, slabs, blocksPerPiece) && Layout(downloads', slabs', blocksPerPiece) && k < |downloads|
    requires Counters(downloads, slabs, numPieces, blocksPerPiece, blocksInLast, downloads[k].index)
    requires WithoutPosition(downloads, slabs, k, downloads', slabs')
    ensures Counters(downloads', slabs', numPieces, blocksPerPiece, blocksInLast, -1)
  {
    forall j | 0 <= j < |downloads'|
      ensures PieceOk(downloads'[j], slabs'[downloads'[j].info],
                      BlocksIn(numPieces, downloads'[j].index, blocksPerPiece, blocksInLast))
      ensures downloads'[j].requested + downloads'[j].writing + downloads'[j].finished > 0
    {
      var i := if j < k then j else j + 1;
      assert downloads[i].index != downloads[k].index;
      assert PieceOk(downloads[i], slabs[downloads[i].info],
                     BlocksIn(numPieces, downloads[i].index, blocksPerPiece, blocksInLast));
    }
  }

  function One(b: bool): int {
    if b then 1 else 0
  }

  /** Changing one block keeps the counters right when they are adjusted for what left and what came. */
  lemma SetBlock(d: DownloadingPiece, blocks: seq<BlockInfo>, num: nat, j: nat, b: BlockInfo, d': DownloadingPiece)
    requires PieceOk(d, blocks, num) && j < num
    requires b.numPeers > 0 <==> b.state == StateRequested
    requires b.state == StateNone ==> b.peer == 0
    requires d'.requested == d.requested - One(blocks[j].state == StateRequested) + One(b.state == StateRequested)
    requires d'.writing == d.writing - One(blocks[j].state == StateWriting) + One(b.state == StateWriting)
    requires d'.finished == d.finished - One(blocks[j].state == StateFinished) + One(b.state == StateFinished)
    requires d'.speed != SpeedNone <==> d'.requested > 0
    ensures PieceOk(d', blocks[j := b], num)
  {
    CountUpdate(blocks, j, b, StateRequested);
    CountUpdate(blocks, j, b, StateWriting);
    CountUpdate(blocks, j, b, StateFinished);
  }

  /** A fresh piece: no block is in any state but none. */
  lemma FreshPiece(d: DownloadingPiece, blocks: seq<BlockInfo>, num: nat)
    requires num <= |blocks| && forall j | 0 <= j < |blocks| :: blocks[j] == NEW_BLOCK
    requires d.speed == SpeedNone && d.requested == d.writing == d.finished == 0
    ensures PieceOk(d, blocks, num)
  {
    CountNone(blocks, StateRequested);
    CountNone(blocks, StateWriting);
    CountNone(blocks, StateFinished);
  }

  /** The whole download queue against the piece map, the counters of piece `except` aside. */
  ghost predicate QueueBut(downloads: seq<DownloadingPiece>, slabs: seq<seq<BlockInfo>>, pieceMap: seq<PiecePos>,
                           blocksPerPiece: nat, blocksInLast: nat, except: int) {
    && blocksInLast <= blocksPerPiece && (|pieceMap| > 0 ==> 0 < blocksInLast)
    && Layout(downloads, slabs, blocksPerPiece)
    && Counters(downloads, slabs, |pieceMap|, blocksPerPiece, blocksInLast, except)
    && Flagged(downloads, pieceMap)
  }

  ghost predicate QueueOk(downloads: seq<DownloadingPiece>, slabs: seq<seq<BlockInfo>>, pieceMap: seq<PiecePos>,
                          blocksPerPiece: nat, blocksInLast: nat) {
    QueueBut(downloads, slabs, pieceMap, blocksPerPiece, blocksInLast, -1)
  }

  lemma FlaggedInsert(downloads: seq<DownloadingPiece>, k: nat, d: DownloadingPiece, pieceMap: seq<PiecePos>)
    requires k <= |downloads| && 0 <= d.index < |pieceMap|
    requires pieceMap[d.index].downloading && !pieceMap[d.index].Have()
    requires Flagged(downloads, pieceMap[d.index := pieceMap[d.index].(downloading := false)])
    ensures Flagged(Inserted(downloads, k, d), pieceMap)
  {
    hide Find;
    var downloads' := Inserted(downloads, k, d);
    var before := pieceMap[d.index := pieceMap[d.index].(downloading := false)];
    forall j | 0 <= j < |downloads'|
      ensures 0 <= downloads'[j].index < |pieceMap| && pieceMap[downloads'[j].index].downloading
      ensures !pieceMap[downloads'[j].index].Have()
    {
      if j != k { assert downloads'[j] == downloads[if j < k then j else j - 1]; }
    }
    forall i | 0 <= i < |pieceMap| && pieceMap[i].downloading
      ensures Find(downloads', i) != -1
    {
      if i == d.index {
        assert downloads'[k].index == i;
      } else {
        assert before[i] == pieceMap[i];
        var j := Find(downloads, i);
        assert downloads'[if j < k then j else j + 1].index == i;
      }
    }
  }

  lemma FlaggedErase(downloads: seq<DownloadingPiece>, slabs: seq<seq<BlockInfo>>, k: nat,
                     downloads': seq<DownloadingPiece>, slabs': seq<seq<BlockInfo>>, pieceMap: seq<PiecePos>)
    requires WithoutPosition(downloads, slabs, k, downloads', slabs') && Flagged(downloads, pieceMap)
    ensures Flagged(downloads', pieceMap[downloads[k].index := pieceMap[downloads[k].index].(downloading := false)])
  {
    hide Find;
    var after := pieceMap[downloads[k].index := pieceMap[downloads[k].index].(downloading := false)];
    forall j | 0 <= j < |downloads'|
      ensures 0 <= downloads'[j].index < |after| && after[downloads'[j].index].downloading && !after[downloads'[j].index].Have()
    {
      assert downloads'[j].index == downloads[if j < k then j else j + 1].index;
    }
    forall i | 0 <= i < |after| && after[i].downloading
      ensures Find(downloads', i) != -1
    {
      var j := Find(downloads, i);
      assert downloads'[if j < k then j else j - 1].index == i;
    }
  }

  lemma FlaggedUpdate(downloads: seq<DownloadingPiece>, k: nat, d: DownloadingPiece, pieceMap: seq<PiecePos>)
    requires k < |downloads| && d.index == downloads[k].index && Flagged(downloads, pieceMap)
    ensures Flagged(downloads[k := d], pieceMap)
  {
    hide Find;
    var downloads' := downloads[k := d];
    forall j | 0 <= j < |downloads'|
      ensures 0 <= downloads'[j].index < |pieceMap| && pieceMap[downloads'[j].index].downloading
      ensures !pieceMap[downloads'[j].index].Have()
    {
      assert downloads'[j].index == downloads[j].index;
    }
    forall i | 0 <= i < |pieceMap| && pieceMap[i].downloading
      ensures Find(downloads', i) != -1
    {
      assert downloads'[Find(downloads, i)].index == i;
    }
  }

  /** The list with piece k erased by moving the last slab. */
  lemma QueueErase(downloads: seq<DownloadingPiece>, slabs: seq<seq<BlockInfo>>, pieceMap: seq<PiecePos>,
                   blocksPerPiece: nat, blocksInLast: nat, k: nat, other: nat, slabs': seq<seq<BlockInfo>>)
    requires k < |downloads| && other < |downloads| && downloads[other].info == |downloads| - 1
    requires QueueBut(downloads, slabs, pieceMap, blocksPerPiece, blocksInLast, downloads[k].index)
    requires downloads[k].info < |slabs| && downloads[other].info < |slabs|
    requires slabs' == if k == other then slabs else slabs[downloads[k].info := slabs[downloads[other].info]]
    ensures 0 <= downloads[k].index < |pieceMap|
    ensures var piece := downloads[k].index;
      var downloads' := Erased(Compacted(downloads, k, other), k);
      && QueueOk(downloads', slabs', pieceMap[piece := pieceMap[piece].(downloading := false)], blocksPerPiece, blocksInLast)
      && SameElsewhere(downloads, slabs, downloads', slabs', piece)
      && View(downloads', slabs', piece) == NotDownloading
  {
    hide Find, View, SameElsewhere, Counters, Layout, Flagged;
    assert 0 <= downloads[k].index < |pieceMap| by { FlaggedRange(downloads, pieceMap); }
    var downloads' := Erased(Compacted(downloads, k, other), k);
    ErasePiece(downloads, slabs, k, other, slabs', |pieceMap|, blocksPerPiece, blocksInLast);
    EraseLayout(downloads, slabs, k, other, slabs', blocksPerPiece);
    FlaggedErase(downloads, slabs, k, downloads', slabs', pieceMap);
  }

  lemma FlaggedRange(downloads: seq<DownloadingPiece>, pieceMap: seq<PiecePos>)
    requires Flagged(downloads, pieceMap)
    ensures forall k | 0 <= k < |downloads| :: 0 <= downloads[k].index < |pieceMap|
    ensures forall k | 0 <= k < |downloads| :: !pieceMap[downloads[k].index].Have()
    ensures forall i | 0 <= i < |pieceMap| && pieceMap[i].downloading :: Find(downloads, i) != -1
    ensures forall i | 0 <= i < |pieceMap| && !pieceMap[i].downloading :: Find(downloads, i) == -1
  {
  }

  lemma QueueInsert(downloads: seq<DownloadingPiece>, slabs: seq<seq<BlockInfo>>, pieceMap: seq<PiecePos>,
                    blocksPerPiece: nat, blocksInLast: nat, k: nat, d: DownloadingPiece, slabs': seq<seq<BlockInfo>>)
    requires k <= |downloads| && 0 <= d.index < |pieceMap|
    requires pieceMap[d.index].downloading && !pieceMap[d.index].Have()
    requires QueueOk(downloads, slabs, pieceMap[d.index := pieceMap[d.index].(downloading := false)], blocksPerPiece, blocksInLast)
    requires forall j | 0 <= j < k :: downloads[j].index < d.index
    requires forall j | k <= j < |downloads| :: d.index <= downloads[j].index
    requires d == DownloadingPiece(SpeedNone, d.index, |downloads|, 0, 0, 0) && |downloads| < |slabs'|
    requires slabs'[|downloads|] == seq(blocksPerPiece, _ => NEW_BLOCK)
    requires slabs'[..|downloads|] == slabs[..|downloads|]
    requires forall s | 0 <= s < |slabs'| :: |slabs'[s]| == blocksPerPiece
    ensures var downloads' := Inserted(downloads, k, d);
      && QueueBut(downloads', slabs', pieceMap, blocksPerPiece, blocksInLast, d.index)
      && SameElsewhere(downloads, slabs, downloads', slabs', d.index)
      && View(downloads', slabs', d.index) == PieceView(SpeedNone, seq(blocksPerPiece, _ => NEW_BLOCK))
      && Find(downloads', d.index) == k
      && PieceOk(d, slabs'[d.info], BlocksIn(|pieceMap|, d.index, blocksPerPiece, blocksInLast))
  {
    hide Find, View, SameElsewhere, Counters, PieceOk, Flagged;
    var before := pieceMap[d.index := pieceMap[d.index].(downloading := false)];
    FlaggedRange(downloads, before);
    assert forall j | 0 <= j < |downloads| :: downloads[j].index != d.index;
    forall s | 0 <= s < |downloads|
      ensures slabs'[s] == slabs[s]
    {
      assert slabs'[..|downloads|][s] == slabs[..|downloads|][s];
    }
    InsertPiece(downloads, slabs, k, d, slabs', |pieceMap|, blocksPerPiece, blocksInLast);
    FlaggedInsert(downloads, k, d, pieceMap);
    FreshPiece(d, slabs'[d.info], BlocksIn(|pieceMap|, d.index, blocksPerPiece, blocksInLast));
  }

  /** Block j of the piece at position k becomes b; the counters in d' must account for it. */
  lemma QueueSetBlock(downloads: seq<DownloadingPiece>, slabs: seq<seq<BlockInfo>>, pieceMap: seq<PiecePos>,
                      blocksPerPiece: nat, blocksInLast: nat, k: nat, j: nat, b: BlockInfo, d': DownloadingPiece)
    requires k < |downloads| && downloads[k].info < |slabs|
    requires QueueBut(downloads, slabs, pieceMap, blocksPerPiece, blocksInLast, downloads[k].index)
    requires PieceOk(downloads[k], slabs[downloads[k].info],
                     BlocksIn(|pieceMap|, downloads[k].index, blocksPerPiece, blocksInLast))
    requires j < BlocksIn(|pieceMap|, downloads[k].index, blocksPerPiece, blocksInLast) <= |slabs[downloads[k].info]|
    requires d'.index == downloads[k].index && d'.info == downloads[k].info
    requires var was := slabs[d'.info][j].state;
      && d'.requested == downloads[k].requested - One(was == StateRequested) + One(b.state == StateRequested)
      && d'.writing == downloads[k].writing - One(was == StateWriting) + One(b.state == StateWriting)
      && d'.finished == downloads[k].finished - One(was == StateFinished) + One(b.state == StateFinished)
    requires b.numPeers > 0 <==> b.state == StateRequested
    requires b.state == StateNone ==> b.peer == 0
    requires d'.speed != SpeedNone <==> d'.requested > 0
    ensures
      var downloads' := downloads[k := d'];
      var slabs' := slabs[d'.info := slabs[d'.info][j := b]];
      && QueueBut(downloads', slabs', pieceMap, blocksPerPiece, blocksInLast, d'.index)
      && PieceOk(d', slabs'[d'.info], BlocksIn(|pieceMap|, d'.index, blocksPerPiece, blocksInLast))
      && (d'.requested + d'.writing + d'.finished > 0 ==> QueueOk(downloads', slabs', pieceMap, blocksPerPiece, blocksInLast))
      && SameElsewhere(downloads, slabs, downloads', slabs', d'.index)
      && View(downloads', slabs', d'.index) == PieceView(d'.speed, slabs[d'.info][j := b])
  {
    hide Find, View, SameElsewhere, PieceOk, Flagged;
    var blocks := slabs[d'.info][j := b];
    SetBlock(downloads[k], slabs[d'.info], BlocksIn(|pieceMap|, d'.index, blocksPerPiece, blocksInLast), j, b, d');
    UpdatePiece(downloads, slabs, k, d', blocks, |pieceMap|, blocksPerPiece, blocksInLast);
    FlaggedUpdate(downloads, k, d', pieceMap);
  }

  /** What a consistent queue says about one of its pieces. */
  lemma QueueAt(downloads: seq<DownloadingPiece>, slabs: seq<seq<BlockInfo>>, pieceMap: seq<PiecePos>,
                blocksPerPiece: nat, blocksInLast: nat, piece: nat)
    requires QueueOk(downloads, slabs, pieceMap, blocksPerPiece, blocksInLast) && piece < |pieceMap|
    ensures BlocksIn(|pieceMap|, piece, blocksPerPiece, blocksInLast) > 0
    ensures Sorted(downloads)
    ensures QueueBut(downloads, slabs, pieceMap, blocksPerPiece, blocksInLast, piece)
    ensures pieceMap[piece].downloading <==> Find(downloads, piece) != -1
    ensures pieceMap[piece].downloading ==> !pieceMap[piece].Have()
    ensures Find(downloads, piece) != -1 ==>
      var d := downloads[Find(downloads, piece)];
      && d.info < |slabs| && d.index == piece && View(downloads, slabs, piece) == PieceView(d.speed, slabs[d.info])
      && |slabs[d.info]| == blocksPerPiece >= BlocksIn(|pieceMap|, piece, blocksPerPiece, blocksInLast)
      && PieceOk(d, slabs[d.info], BlocksIn(|pieceMap|, piece, blocksPerPiece, blocksInLast))
      && d.requested + d.writing + d.finished > 0
    ensures Find(downloads, piece) == -1 ==> View(downloads, slabs, piece) == NotDownloading
  {
    hide Find, PieceOk;
  }

  lemma DownloadingIsMissing(downloads: seq<DownloadingPiece>, slabs: seq<seq<BlockInfo>>, pieceMap: seq<PiecePos>,
                             blocksPerPiece: nat, blocksInLast: nat)
    requires QueueOk(downloads, slabs, pieceMap, blocksPerPiece, blocksInLast)
    ensures forall i | 0 <= i < |pieceMap| && pieceMap[i].downloading :: !pieceMap[i].Have()
  {
  }

  lemma QueueKept(downloads: seq<DownloadingPiece>, slabs: seq<seq<BlockInfo>>, a: seq<PiecePos>, b: seq<PiecePos>,
                  blocksPerPiece: nat, blocksInLast: nat)
    requires QueueOk(downloads, slabs, a, blocksPerPiece, blocksInLast) && |a| == |b|
    requires forall i | 0 <= i < |a| :: a[i].downloading == b[i].downloading
    requires forall i | 0 <= i < |a| && a[i].downloading :: !b[i].Have()
    ensures QueueOk(downloads, slabs, b, blocksPerPiece, blocksInLast)
  {
    hide Find, PieceOk;
    forall k | 0 <= k < |downloads|
      ensures 0 <= downloads[k].index < |b| && b[downloads[k].index].downloading && !b[downloads[k].index].Have()
    {
    }
  }

  lemma QueueFull(downloads: seq<DownloadingPiece>, slabs: seq<seq<BlockInfo>>, a: seq<PiecePos>,
                  blocksPerPiece: nat, blocksInLast: nat, i: nat, p: PiecePos)
    requires i < |a| && p == a[i].(full := p.full)
    requires QueueBut(downloads, slabs, a, blocksPerPiece, blocksInLast, i)
    ensures QueueBut(downloads, slabs, a[i := p], blocksPerPiece, blocksInLast, i)
    ensures QueueOk(downloads, slabs, a, blocksPerPiece, blocksInLast) ==>
              QueueOk(downloads, slabs, a[i := p], blocksPerPiece, blocksInLast)
  {
    hide Find, PieceOk;
  }

  /** Before its entry is made, a piece whose flag has just been set is the only one out of step. */
  lemma StartedQueue(a: seq<PiecePos>, b: seq<PiecePos>, i: nat,
                     downloads: seq<DownloadingPiece>, slabs: seq<seq<BlockInfo>>, blocksPerPiece: nat, blocksInLast: nat)
    requires i < |a| && !a[i].downloading && !a[i].Have()
    requires MovedOnly(a[i := a[i].(downloading := true)], b)
    requires QueueOk(downloads, slabs, a, blocksPerPiece, blocksInLast)
    ensures QueueOk(downloads, slabs, b[i := b[i].(downloading := false)], blocksPerPiece, blocksInLast)
    ensures |a| == |b| && b[i].downloading && !b[i].Have()
  {
    hide QueueOk;
    var c := b[i := b[i].(downloading := false)];
    DownloadingIsMissing(downloads, slabs, a, blocksPerPiece, blocksInLast);
    forall j | 0 <= j < |a|
      ensures a[j].downloading == c[j].downloading && a[j].Have() == c[j].Have()
    {
      assert b[j].SameButIndex(a[i := a[i].(downloading := true)][j]);
    }
    assert b[i].SameButIndex(a[i].(downloading := true));
    QueueKept(downloads, slabs, a, c, blocksPerPiece, blocksInLast);
  }

  lemma SameTwice(d0: seq<DownloadingPiece>, s0: seq<seq<BlockInfo>>, d1: seq<DownloadingPiece>, s1: seq<seq<BlockInfo>>,
                  d2: seq<DownloadingPiece>, s2: seq<seq<BlockInfo>>, piece: int)
    requires SameElsewhere(d0, s0, d1, s1, piece) && SameElsewhere(d1, s1, d2, s2, piece)
    ensures SameElsewhere(d0, s0, d2, s2, piece)
  {
    hide View;
    forall p | p != piece
      ensures View(d2, s2, p) == View(d0, s0, p)
    {
      assert View(d1, s1, p) == View(d0, s0, p);
    }
  }

  lemma SameNone(d0: seq<DownloadingPiece>, s0: seq<seq<BlockInfo>>, piece: int)
    ensures SameElsewhere(d0, s0, d0, s0, piece)
  {
  }

  /** Everything a mark needs to know about the piece at position k. */
  ghost predicate At(downloads: seq<DownloadingPiece>, slabs: seq<seq<BlockInfo>>, pieceMap: seq<PiecePos>,
                     blocksPerPiece: nat, blocksInLast: nat, k: int, piece: int) {
    && 0 <= k < |downloads| && downloads[k].info < |slabs| && downloads[k].index == piece
    && 0 <= piece < |pieceMap| && k == Find(downloads, piece)
    && QueueBut(downloads, slabs, pieceMap, blocksPerPiece, blocksInLast, piece)
    && |slabs[downloads[k].info]| == blocksPerPiece >= BlocksIn(|pieceMap|, piece, blocksPerPiece, blocksInLast)
    && PieceOk(downloads[k], slabs[downloads[k].info], BlocksIn(|pieceMap|, piece, blocksPerPiece, blocksInLast))
    && View(downloads, slabs, piece) == PieceView(downloads[k].speed, slabs[downloads[k].info])
  }

  /** The new record of a piece accounts for block j turning into b. */
  predicate Accounts(d: DownloadingPiece, d': DownloadingPiece, was: BlockInfo, b: BlockInfo) {
    && d'.index == d.index && d'.info == d.info
    && d'.requested == d.requested - One(was.state == StateRequested) + One(b.state == StateRequested)
    && d'.writing == d.writing - One(was.state == StateWriting) + One(b.state == StateWriting)
    && d'.finished == d.finished - One(was.state == StateFinished) + One(b.state == StateFinished)
    && (b.numPeers > 0 <==> b.state == StateRequested)
    && (b.state == StateNone ==> b.peer == 0)
    && (d'.speed != SpeedNone <==> d'.requested > 0)
  }

  lemma StoreAt(downloads: seq<DownloadingPiece>, slabs: seq<seq<BlockInfo>>, pieceMap: seq<PiecePos>,
                blocksPerPiece: nat, blocksInLast: nat, k: nat, piece: int, j: nat, b: BlockInfo, d: DownloadingPiece)
    requires At(downloads, slabs, pieceMap, blocksPerPiece, blocksInLast, k, piece)
    requires j < BlocksIn(|pieceMap|, piece, blocksPerPiece, blocksInLast)
    requires Accounts(downloads[k], d, slabs[downloads[k].info][j], b)
    ensures
      var downloads' := downloads[k := d];
      var slabs' := slabs[d.info := slabs[d.info][j := b]];
      && At(downloads', slabs', pieceMap, blocksPerPiece, blocksInLast, k, piece)
      && (d.requested + d.writing + d.finished > 0 ==> QueueOk(downloads', slabs', pieceMap, blocksPerPiece, blocksInLast))
      && SameElsewhere(downloads, slabs, downloads', slabs', piece)
      && View(downloads', slabs', piece) == PieceView(d.speed, slabs[d.info][j := b])
      && Active(slabs[d.info][j := b]) == d.requested + d.writing + d.finished
      && CountState(slabs[d.info][j := b], StateRequested) == d.requested
  {
    hide SameElsewhere, Flagged, Counters, View;
    QueueSetBlock(downloads, slabs, pieceMap, blocksPerPiece, blocksInLast, k, j, b, d);
    assert Sorted(downloads) && Sorted(downloads[k := d]);
    FindIs(downloads[k := d], piece);
  }

  lemma QueueAtFind(downloads: seq<DownloadingPiece>, slabs: seq<seq<BlockInfo>>, pieceMap: seq<PiecePos>,
                    blocksPerPiece: nat, blocksInLast: nat, piece: nat)
    requires QueueOk(downloads, slabs, pieceMap, blocksPerPiece, blocksInLast) && piece < |pieceMap|
    ensures 0 < BlocksIn(|pieceMap|, piece, blocksPerPiece, blocksInLast) <= blocksPerPiece
    ensures Sorted(downloads) && (pieceMap[piece].downloading ==> !pieceMap[piece].Have())
    ensures |BlocksOf(View(downloads, slabs, piece), blocksPerPiece)| == blocksPerPiece
    ensures
      if pieceMap[piece].downloading then
        && At(downloads, slabs, pieceMap, blocksPerPiece, blocksInLast, Find(downloads, piece), piece)
        && Active(slabs[downloads[Find(downloads, piece)].info]) > 0
      else View(downloads, slabs, piece) == NotDownloading && Find(downloads, piece) == -1
  {
    hide View, Flagged, Counters, Find;
    QueueAt(downloads, slabs, pieceMap, blocksPerPiece, blocksInLast, piece);
  }

  lemma AtQueueBut(downloads: seq<DownloadingPiece>, slabs: seq<seq<BlockInfo>>, pieceMap: seq<PiecePos>,
                   blocksPerPiece: nat, blocksInLast: nat, k: int, piece: int)
    requires At(downloads, slabs, pieceMap, blocksPerPiece, blocksInLast, k, piece)
    ensures QueueBut(downloads, slabs, pieceMap, blocksPerPiece, blocksInLast, piece)
  {
  }

  lemma EmptyQueue(pieceMap: seq<PiecePos>, blocksPerPiece: nat, blocksInLast: nat)
    requires 0 < blocksInLast <= blocksPerPiece
    requires forall i | 0 <= i < |pieceMap| :: !pieceMap[i].downloading
    ensures QueueOk([], [], pieceMap, blocksPerPiece, blocksInLast)
  {
  }

  lemma AtFacts(downloads: seq<DownloadingPiece>, slabs: seq<seq<BlockInfo>>, pieceMap: seq<PiecePos>,
                blocksPerPiece: nat, blocksInLast: nat, k: nat, piece: int, j: nat)
    requires At(downloads, slabs, pieceMap, blocksPerPiece, blocksInLast, k, piece)
    requires j < BlocksIn(|pieceMap|, piece, blocksPerPiece, blocksInLast)
    ensures k < |downloads| && downloads[k].info < |slabs| && downloads[k].index == piece
    ensures j < |slabs[downloads[k].info]| == blocksPerPiece
    ensures View(downloads, slabs, piece) == PieceView(downloads[k].speed, slabs[downloads[k].info])
    ensures var d, b := downloads[k], slabs[downloads[k].info][j];
      && d.requested >= 0 && d.writing >= 0 && d.finished >= 0
      && Active(slabs[d.info]) == d.requested + d.writing + d.finished
      && (d.speed != SpeedNone <==> d.requested > 0)
      && (b.numPeers > 0 <==> b.state == StateRequested)
      && (b.state == StateNone ==> b.peer == 0)
      && (b.state == StateRequested ==> d.requested > 0)
      && (b.state == StateWriting ==> d.writing > 0)
      && (b.state == StateFinished ==> d.finished > 0)
  {
    hide QueueBut, View, Find;
    CountSome(slabs[downloads[k].info], j);
  }

  // The block state machine on views: what each operation makes of one piece.

  function FreshBlocks(blocksPerPiece: nat): (blocks: seq<BlockInfo>)
    ensures |blocks| == blocksPerPiece && forall j | 0 <= j < |blocks| :: blocks[j] == NEW_BLOCK
  {
    seq(blocksPerPiece, _ => NEW_BLOCK)
  }

  function BlocksOf(v: PieceView, blocksPerPiece: nat): seq<BlockInfo> {
    if v.NotDownloading? then FreshBlocks(blocksPerPiece) else v.blocks
  }

  /** The number of blocks requested, being written or finished. */
  ghost function Active(blocks: seq<BlockInfo>): nat {
    CountState(blocks, StateRequested) + CountState(blocks, StateWriting) + CountState(blocks, StateFinished)
  }

  /** Every block of a downloading piece is active. The full flag is set from this when a block is first requested, when a
      piece starts with an arrival, and when a block is freed; at other times it may lag behind. */
  ghost predicate FullNow(v: PieceView, num: nat) {
    v.PieceView? && Active(v.blocks) == num
  }

  /** A piece stays listed as long as some block is active, and has a speed as long as one is requested. */
  ghost function Settle(speed: Speed, blocks: seq<BlockInfo>): PieceView {
    if Active(blocks) == 0 then NotDownloading
    else PieceView(if CountState(blocks, StateRequested) == 0 then SpeedNone else speed, blocks)
  }

  predicate Received(b: BlockInfo) {
    b.state == StateWriting || b.state == StateFinished
  }

  /** A peer queues block j. */
  ghost function Requested(v: PieceView, blocksPerPiece: nat, j: nat, peer: nat, speed: Speed): PieceView
    requires j < |BlocksOf(v, blocksPerPiece)|
  {
    var blocks := BlocksOf(v, blocksPerPiece);
    if Received(blocks[j]) then v
    else PieceView(if v.NotDownloading? || v.speed == SpeedNone then speed else v.speed,
                   blocks[j := BlockInfo(peer, blocks[j].numPeers + 1, StateRequested)])
  }

  /** Block j has arrived and goes to the disk queue. */
  ghost function Written(v: PieceView, blocksPerPiece: nat, j: nat, peer: nat): PieceView
    requires j < |BlocksOf(v, blocksPerPiece)|
  {
    var blocks := BlocksOf(v, blocksPerPiece);
    var speed := if v.NotDownloading? then SpeedNone else v.speed;
    if Received(blocks[j]) then PieceView(speed, blocks[j := blocks[j].(peer := peer)])
    else Settle(speed, blocks[j := BlockInfo(peer, 0, StateWriting)])
  }

  /** Block j is on disk. */
  ghost function Completed(v: PieceView, blocksPerPiece: nat, j: nat, peer: nat): PieceView
    requires j < |BlocksOf(v, blocksPerPiece)|
  {
    var blocks := BlocksOf(v, blocksPerPiece);
    var speed := if v.NotDownloading? then SpeedNone else v.speed;
    if blocks[j].state == StateFinished then v
    else PieceView(speed, blocks[j := BlockInfo(peer, 0, StateFinished)])
  }

  /** Writing block j to disk failed: it is as if it had never been asked for. */
  ghost function Failed(v: PieceView, j: nat): PieceView
    requires v.PieceView? ==> j < |v.blocks|
  {
    if v.NotDownloading? || v.blocks[j].state == StateFinished then v
    else Settle(v.speed, v.blocks[j := NEW_BLOCK])
  }

  /** One peer drops its request for block j; the last one to do so frees it. */
  ghost function Aborted(v: PieceView, j: nat, peer: nat): PieceView
    requires v.PieceView? ==> j < |v.blocks|
  {
    if v.NotDownloading? || v.blocks[j].state != StateRequested then v
    else
      var b := v.blocks[j];
      if b.numPeers > 1 then
        PieceView(v.speed, v.blocks[j := b.(numPeers := b.numPeers - 1, peer := if b.peer == peer then 0 else b.peer)])
      else
        Settle(v.speed, v.blocks[j := NEW_BLOCK])
  }

  /** A view that a consistent queue can show for a piece of `num` blocks. */
  ghost predicate ViewOk(v: PieceView, num: nat) {
    v.PieceView? ==>
      exists d :: PieceOk(d, v.blocks, num) && d.speed == v.speed && d.requested + d.writing + d.finished > 0
  }

  /** From one state of a view to another only block j changes. */
  ghost predicate OnlyBlock(v: PieceView, v': PieceView, blocksPerPiece: nat, j: nat) {
    var a, b := BlocksOf(v, blocksPerPiece), BlocksOf(v', blocksPerPiece);
    |a| == |b| && forall i | 0 <= i < |a| && i != j :: b[i] == a[i]
  }

  /** Records that a consistent queue can have: a block has peers exactly while it is requested, and no name while free. */
  ghost predicate RecordsOk(blocks: seq<BlockInfo>) {
    && (forall j | 0 <= j < |blocks| :: blocks[j].numPeers > 0 <==> blocks[j].state == StateRequested)
    && (forall j | 0 <= j < |blocks| && blocks[j].state == StateNone :: blocks[j].peer == 0)
  }

  lemma ViewRecords(v: PieceView, num: nat, blocksPerPiece: nat)
    requires ViewOk(v, num)
    ensures RecordsOk(BlocksOf(v, blocksPerPiece))
  {
  }

  /** A piece that leaves the list has only fresh blocks. */
  lemma SettledBlocks(speed: Speed, blocks: seq<BlockInfo>)
    requires RecordsOk(blocks)
    ensures BlocksOf(Settle(speed, blocks), |blocks|) == blocks
  {
    if Active(blocks) == 0 {
      forall j | 0 <= j < |blocks|
        ensures blocks[j] == NEW_BLOCK
      {
        CountSome(blocks, j);
      }
    }
  }

  /** A block that has not come can be asked for. */
  lemma AskedFor(v: PieceView, blocksPerPiece: nat, j: nat, peer: nat, speed: Speed)
    requires j < |BlocksOf(v, blocksPerPiece)| == blocksPerPiece && !Received(BlocksOf(v, blocksPerPiece)[j])
    ensures var asked, b := Requested(v, blocksPerPiece, j, peer, speed), BlocksOf(v, blocksPerPiece)[j];
      && asked.PieceView? && OnlyBlock(v, asked, blocksPerPiece, j)
      && asked.blocks[j] == BlockInfo(peer, b.numPeers + 1, StateRequested)
  {
  }

  /** Once it has come, nobody asks for it and no request for it can be dropped, but its write can fail, and then it is as
      if it had never been asked for. */
  lemma HasCome(v: PieceView, num: nat, blocksPerPiece: nat, j: nat, peer: nat, other: nat, speed: Speed)
    requires ViewOk(v, num) && j < |BlocksOf(v, blocksPerPiece)| == blocksPerPiece && !Received(BlocksOf(v, blocksPerPiece)[j])
    ensures var come := Written(v, blocksPerPiece, j, peer);
      && come.PieceView? && OnlyBlock(v, come, blocksPerPiece, j)
      && |come.blocks| == blocksPerPiece && Received(come.blocks[j]) && come.blocks[j].peer == peer
      && Requested(come, blocksPerPiece, j, other, speed) == come && Aborted(come, j, other) == come
      && BlocksOf(Failed(come, j), blocksPerPiece) == BlocksOf(v, blocksPerPiece)[j := NEW_BLOCK]
      && BlocksOf(Written(come, blocksPerPiece, j, other), blocksPerPiece)[j] == come.blocks[j].(peer := other)
  {
    var blocks := BlocksOf(v, blocksPerPiece);
    var written := blocks[j := BlockInfo(peer, 0, StateWriting)];
    CountSome(written, j);
    ViewRecords(v, num, blocksPerPiece);
    assert written[j := NEW_BLOCK] == blocks[j := NEW_BLOCK];
    SettledBlocks(Written(v, blocksPerPiece, j, peer).speed, blocks[j := NEW_BLOCK]);
    hide CountState, Active, ViewOk;
  }

  /** Once it is on disk, nothing but the loss of the whole piece changes that. */
  lemma OnDisk(v: PieceView, blocksPerPiece: nat, j: nat, peer: nat, other: nat, speed: Speed)
    requires j < |BlocksOf(v, blocksPerPiece)| == blocksPerPiece && BlocksOf(v, blocksPerPiece)[j].state != StateFinished
    ensures var kept := Completed(v, blocksPerPiece, j, peer);
      && kept.PieceView? && OnlyBlock(v, kept, blocksPerPiece, j)
      && |kept.blocks| == blocksPerPiece && Received(kept.blocks[j]) && kept.blocks[j].peer == peer
      && Requested(kept, blocksPerPiece, j, other, speed) == kept && Aborted(kept, j, other) == kept
      && Failed(kept, j) == kept && Completed(kept, blocksPerPiece, j, other) == kept
      && BlocksOf(Written(kept, blocksPerPiece, j, other), blocksPerPiece)[j] == kept.blocks[j].(peer := other)
  {
  }

  /** Aborting a request right after making it restores the piece, unless the block had an earlier peer,
      whose name the request overwrote. */
  lemma AbortUndoesRequest(v: PieceView, num: nat, blocksPerPiece: nat, j: nat, peer: nat, speed: Speed)
    requires ViewOk(v, num) && j < num <= blocksPerPiece && |BlocksOf(v, blocksPerPiece)| == blocksPerPiece
    requires speed != SpeedNone && !Received(BlocksOf(v, blocksPerPiece)[j])
    ensures (Aborted(Requested(v, blocksPerPiece, j, peer, speed), j, peer) == v)
            <==> BlocksOf(v, blocksPerPiece)[j].peer == 0
  {
    var blocks := BlocksOf(v, blocksPerPiece);
    var b := blocks[j];
    var requested := blocks[j := BlockInfo(peer, b.numPeers + 1, StateRequested)];
    if v.NotDownloading? {
      CountNone(blocks, StateRequested);
      CountNone(blocks, StateWriting);
      CountNone(blocks, StateFinished);
    }
    if b.state == StateNone {
      assert requested[j := NEW_BLOCK] == blocks;
    } else {
      CountSome(blocks, j);
    }
  }
}
