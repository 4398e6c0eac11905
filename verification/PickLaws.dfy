/** What a pick may list, and how often it lists it. */
module PickLaws {
  import opened PieceTypes
  import opened Downloads
  import opened FullFlags

  datatype PieceBlock = PieceBlock(piece: nat, block: nat)

  datatype Options = Options(
    rarestFirst: bool,
    reverse: bool,
    onParole: bool,
    prioritizePartials: bool,
    sequential: bool,
    speedAffinity: bool,
    ignoreWholePieces: bool
  )

  /** The part of the picker that choosing blocks reads and does not change. */
  datatype Snapshot = Snapshot(
    pieceMap: seq<PiecePos>,
    downloads: seq<DownloadingPiece>,
    slabs: seq<seq<BlockInfo>>,
    blocksPerPiece: nat,
    blocksInLast: nat
  ) {
    ghost predicate Ok() {
      QueueOk(downloads, slabs, pieceMap, blocksPerPiece, blocksInLast)
    }

    /** A full flag may lag behind, but only on a piece of which nothing is requested. */
    ghost predicate FlagsOk() {
      FullOk(downloads, slabs, pieceMap, blocksPerPiece, blocksInLast)
    }

    function BlocksIn(piece: int): nat {
      Downloads.BlocksIn(|pieceMap|, piece, blocksPerPiece, blocksInLast)
    }
  }

  /** Who asks, and what that peer has. */
  datatype Request = Request(bits: seq<bool>, peer: nat, speed: Speed, whole: nat, options: Options)

  predicate IsPieceFree(s: Snapshot, piece: int, bits: seq<bool>)
    requires 0 <= piece < |s.pieceMap| == |bits|
  {
    bits[piece] && !s.pieceMap[piece].Have() && !s.pieceMap[piece].Filtered()
  }

  predicate CanPick(s: Snapshot, piece: int, bits: seq<bool>)
    requires 0 <= piece < |s.pieceMap| == |bits|
  {
    bits[piece] && !s.pieceMap[piece].Have() && !s.pieceMap[piece].downloading && !s.pieceMap[piece].Filtered()
  }

  /** The lists a pick builds, and how many blocks are still to be found. */
  datatype Picks = Picks(interesting: seq<PieceBlock>, backup: seq<PieceBlock>, backup2: seq<PieceBlock>, left: int)

  function Take(p: Picks, b: PieceBlock): Picks {
    p.(interesting := p.interesting + [b], left := p.left - 1)
  }

  ghost predicate Extends(p: Picks, p': Picks) {
    p.interesting <= p'.interesting && p.backup <= p'.backup && p.backup2 <= p'.backup2 && p'.left <= p.left
  }

  /** A block of a piece that nobody downloads and the peer could provide. */
  predicate Fresh(s: Snapshot, q: Request, b: PieceBlock)
    requires |s.pieceMap| == |q.bits|
  {
    b.piece < |s.pieceMap| && CanPick(s, b.piece, q.bits) && b.block < s.BlocksIn(b.piece)
  }

  /** The first pickable piece of the run around `piece`, not before `low`; and the end of the run, not behind `high`. */
  function RunStart(s: Snapshot, bits: seq<bool>, piece: nat, low: nat): (start: nat)
    requires low <= piece < |s.pieceMap| == |bits|
    ensures low <= start <= piece
    decreases piece
  {
    if piece > low && CanPick(s, piece - 1, bits) then RunStart(s, bits, piece - 1, low) else piece
  }

  function RunEnd(s: Snapshot, bits: seq<bool>, end: nat, high: nat): (e: nat)
    requires end <= high <= |s.pieceMap| == |bits|
    ensures end <= e <= high
    decreases high - end
  {
    if end < high && CanPick(s, end, bits) then RunEnd(s, bits, end + 1, high) else end
  }

  /** The pieces that are taken together with one nobody downloads: the run around it, when whole pieces are wanted. */
  function RunOf(s: Snapshot, bits: seq<bool>, piece: nat, whole: nat): (run: (nat, nat))
    requires piece < |s.pieceMap| == |bits|
    ensures run.0 <= piece < run.1 <= |s.pieceMap|
    ensures whole <= 1 || |s.pieceMap| == 1 ==> run == (piece, piece + 1)
  {
    if whole == 0 then (piece, piece + 1)
    else
      var start := RunStart(s, bits, piece, if piece + 1 < whole then 0 else piece + 1 - whole);
      (start, RunEnd(s, bits, piece + 1, if start + whole > |s.pieceMap| then |s.pieceMap| else start + whole))
  }

  /** A run grows by one piece at a time. */
  lemma RunStartStep(s: Snapshot, bits: seq<bool>, piece: nat, low: nat)
    requires low <= piece < |s.pieceMap| == |bits|
    ensures RunStart(s, bits, piece, low) == if piece > low && CanPick(s, piece - 1, bits) then RunStart(s, bits, piece - 1, low) else piece
  {
  }

  lemma RunEndStep(s: Snapshot, bits: seq<bool>, end: nat, high: nat)
    requires end <= high <= |s.pieceMap| == |bits|
    ensures RunEnd(s, bits, end, high) == if end < high && CanPick(s, end, bits) then RunEnd(s, bits, end + 1, high) else end
  {
  }

  lemma RunParts(s: Snapshot, bits: seq<bool>, piece: nat, whole: nat)
    requires piece < |s.pieceMap| == |bits|
    ensures whole == 0 ==> RunOf(s, bits, piece, whole) == (piece, piece + 1)
    ensures whole > 0 ==>
      var start := RunStart(s, bits, piece, if piece + 1 < whole then 0 else piece + 1 - whole);
      RunOf(s, bits, piece, whole) == (start, RunEnd(s, bits, piece + 1, if start + whole > |bits| then |bits| else start + whole))
  {
  }

  /** Every run is a single piece. */
  predicate Apart(s: Snapshot, q: Request) {
    q.whole <= 1 || |s.pieceMap| == 1
  }

  /** A downloading piece that is not looked at in its turn: it is marked full, or all partial pieces come first. */
  predicate PassedOver(s: Snapshot, q: Request, piece: nat)
    requires piece < |s.pieceMap|
  {
    s.pieceMap[piece].downloading && (s.pieceMap[piece].full || q.options.prioritizePartials)
  }

  /** A piece that is never touched: not a wanted one the peer has, or one that is passed over. */
  predicate Shut(s: Snapshot, q: Request, piece: nat)
    requires piece < |s.pieceMap| == |q.bits|
  {
    !IsPieceFree(s, piece, q.bits) || PassedOver(s, q, piece)
  }

  /** Considering `piece` adds blocks of piece x. */
  predicate Touches(s: Snapshot, q: Request, piece: nat, x: nat)
    requires |s.pieceMap| == |q.bits|
  {
    && piece < |s.pieceMap| && IsPieceFree(s, piece, q.bits)
    && if s.pieceMap[piece].downloading then x == piece && !PassedOver(s, q, piece)
       else RunOf(s, q.bits, piece, q.whole).0 <= x < RunOf(s, q.bits, piece, q.whole).1
  }

  /** How often piece x is touched when pieces are considered one by one, save the ignored ones. */
  ghost function Visits(s: Snapshot, q: Request, pieces: seq<nat>, ignore: seq<nat>, x: nat): (n: nat)
    requires |s.pieceMap| == |q.bits|
  {
    if |pieces| == 0 then 0
    else
      var last := |pieces| - 1;
      Visits(s, q, pieces[..last], ignore, x) + if pieces[last] !in ignore && Touches(s, q, pieces[last], x) then 1 else 0
  }

  lemma {:induction false} VisitsGrow(s: Snapshot, q: Request, pieces: seq<nat>, ignore: seq<nat>, x: nat, n: nat)
    requires |s.pieceMap| == |q.bits| && n <= |pieces|
    ensures Visits(s, q, pieces[..n], ignore, x) <= Visits(s, q, pieces, ignore, x)
  {
    if n < |pieces| {
      var last := |pieces| - 1;
      VisitsGrow(s, q, pieces[..last], ignore, x, n);
      assert pieces[..last][..n] == pieces[..n];
    } else {
      assert pieces[..n] == pieces;
    }
  }

  /** Each of two places in the list at which a piece is touched counts. */
  lemma {:induction false} VisitsTwice(s: Snapshot, q: Request, pieces: seq<nat>, ignore: seq<nat>, x: nat, i: nat, j: nat)
    requires |s.pieceMap| == |q.bits| && i <= j < |pieces|
    requires pieces[i] !in ignore && Touches(s, q, pieces[i], x) && pieces[j] !in ignore && Touches(s, q, pieces[j], x)
    ensures Visits(s, q, pieces, ignore, x) >= if i < j then 2 else 1
  {
    hide Touches;
    var last := |pieces| - 1;
    if j < last {
      VisitsTwice(s, q, pieces[..last], ignore, x, i, j);
    } else if i < last {
      VisitsTwice(s, q, pieces[..last], ignore, x, i, i);
    }
  }

  /** No piece is in the list twice. */
  ghost predicate Distinct(pieces: seq<int>) {
    forall i, j | 0 <= i < j < |pieces| :: pieces[i] != pieces[j]
  }

  /** A piece that can be touched at all. */
  predicate Open(s: Snapshot, q: Request, ignore: seq<nat>, x: nat)
    requires |s.pieceMap| == |q.bits|
  {
    x < |s.pieceMap| && x !in ignore && !Shut(s, q, x)
  }

  /** Unless several whole pieces are taken at a time, a list without repetitions touches a piece once at most. */
  lemma {:induction false} VisitsOnce(s: Snapshot, q: Request, pieces: seq<nat>, ignore: seq<nat>, x: nat)
    requires |s.pieceMap| == |q.bits| && Apart(s, q) && Distinct(pieces)
    ensures Visits(s, q, pieces, ignore, x) <= if x in pieces && Open(s, q, ignore, x) then 1 else 0
  {
    if |pieces| > 0 {
      var last := |pieces| - 1;
      VisitsOnce(s, q, pieces[..last], ignore, x);
      assert pieces == pieces[..last] + [pieces[last]];
    }
  }

  lemma {:induction false} RunPickable(s: Snapshot, bits: seq<bool>, piece: nat, low: nat, end: nat, high: nat)
    requires low <= piece < |s.pieceMap| == |bits| && end <= high <= |s.pieceMap|
    ensures forall k | RunStart(s, bits, piece, low) <= k < piece :: CanPick(s, k, bits)
    ensures forall k | end <= k < RunEnd(s, bits, end, high) :: CanPick(s, k, bits)
    decreases piece - low, high - end
  {
    if piece > low && CanPick(s, piece - 1, bits) {
      RunPickable(s, bits, piece - 1, low, end, high);
    } else if end < high && CanPick(s, end, bits) {
      RunPickable(s, bits, piece, low, end + 1, high);
    }
  }

  lemma {:induction false} RunEnds(s: Snapshot, bits: seq<bool>, piece: nat, low: nat, end: nat, high: nat)
    requires low <= piece < |s.pieceMap| == |bits| && end <= high <= |s.pieceMap|
    ensures var start := RunStart(s, bits, piece, low); start == low || !CanPick(s, start - 1, bits)
    ensures var e := RunEnd(s, bits, end, high); e == high || !CanPick(s, e, bits)
    decreases piece - low, high - end
  {
    if piece > low && CanPick(s, piece - 1, bits) {
      RunEnds(s, bits, piece - 1, low, end, high);
    } else if end < high && CanPick(s, end, bits) {
      RunEnds(s, bits, piece, low, end + 1, high);
    }
  }

  /** A run is the longest one of pickable pieces that reaches at most `whole` pieces down and is no longer than that. */
  lemma RunIs(s: Snapshot, bits: seq<bool>, piece: nat, whole: nat)
    requires piece < |s.pieceMap| == |bits|
    ensures var run := RunOf(s, bits, piece, whole);
      && run.1 - run.0 <= (if whole == 0 then 1 else whole)
      && (forall k | run.0 <= k < run.1 && k != piece :: CanPick(s, k, bits))
      && (run.0 == 0 || run.0 == piece - whole + 1 || whole == 0 || !CanPick(s, run.0 - 1, bits))
      && (run.1 == |s.pieceMap| || run.1 == run.0 + whole || whole == 0 || !CanPick(s, run.1, bits))
  {
    if whole > 0 {
      var low, start := if piece + 1 < whole then 0 else piece + 1 - whole, RunOf(s, bits, piece, whole).0;
      var high := if start + whole > |s.pieceMap| then |s.pieceMap| else start + whole;
      RunPickable(s, bits, piece, low, piece + 1, high);
      RunEnds(s, bits, piece, low, piece + 1, high);
    }
  }

  /** Only wanted pieces the peer has are touched. */
  lemma TouchedFree(s: Snapshot, q: Request, piece: nat, x: nat)
    requires |s.pieceMap| == |q.bits| && Touches(s, q, piece, x)
    ensures x < |s.pieceMap| && !Shut(s, q, x)
    ensures !s.pieceMap[piece].downloading ==> CanPick(s, x, q.bits)
  {
    RunIs(s, q.bits, piece, q.whole);
    assert x == piece || CanPick(s, x, q.bits);
  }

  lemma {:induction false} VisitedOpen(s: Snapshot, q: Request, pieces: seq<nat>, ignore: seq<nat>, x: nat)
    requires |s.pieceMap| == |q.bits| && (x < |s.pieceMap| ==> Shut(s, q, x))
    ensures Visits(s, q, pieces, ignore, x) == 0
  {
    if |pieces| > 0 {
      var last := |pieces| - 1;
      VisitedOpen(s, q, pieces[..last], ignore, x);
      if Touches(s, q, pieces[last], x) {
        TouchedFree(s, q, pieces[last], x);
      }
    }
  }

  /** Everything a pick holds: what was taken, and what was put aside. */
  ghost function Bag(p: Picks): multiset<PieceBlock> {
    multiset(p.interesting) + multiset(p.backup) + multiset(p.backup2)
  }

  /** Each of the first n blocks of one piece was added once at most, and nothing else. */
  ghost predicate Adds(p: Picks, p': Picks, piece: nat, n: nat) {
    forall b: PieceBlock :: Bag(p')[b] <= Bag(p)[b] + if b.piece == piece && b.block < n then 1 else 0
  }

  /** No block was added twice, and only blocks of one piece. */
  ghost predicate AddsOne(p: Picks, p': Picks, piece: nat) {
    forall b: PieceBlock :: Bag(p')[b] <= Bag(p)[b] + if b.piece == piece then 1 else 0
  }

  lemma AddsNone(p: Picks, piece: nat)
    ensures Adds(p, p, piece, 0)
  {
  }

  lemma AddsAny(p: Picks, p': Picks, piece: nat, n: nat)
    requires Adds(p, p', piece, n)
    ensures AddsOne(p, p', piece) && AddsOne(p, p'.(left := 0), piece)
  {
    assert Bag(p'.(left := 0)) == Bag(p');
  }

  lemma BagGrows(p: Picks, b: PieceBlock)
    ensures Bag(Take(p, b)) == Bag(p) + multiset{b}
    ensures Bag(p.(backup := p.backup + [b])) == Bag(p) + multiset{b}
    ensures Bag(p.(backup2 := p.backup2 + [b])) == Bag(p) + multiset{b}
  {
  }

  lemma AddsStep(p0: Picks, p: Picks, p': Picks, piece: nat, j: nat)
    requires Adds(p0, p, piece, j) && Bag(p') == Bag(p) + multiset{PieceBlock(piece, j)}
    ensures Adds(p0, p', piece, j + 1)
  {
    hide Bag;
  }

  lemma AddsBlock(p0: Picks, p: Picks, piece: nat, j: nat)
    requires Adds(p0, p, piece, j)
    ensures var b := PieceBlock(piece, j);
      && Adds(p0, p, piece, j + 1) && Adds(p0, Take(p, b), piece, j + 1)
      && Adds(p0, p.(backup := p.backup + [b]), piece, j + 1) && Adds(p0, p.(backup2 := p.backup2 + [b]), piece, j + 1)
  {
    hide Bag;
    var b := PieceBlock(piece, j);
    BagGrows(p, b);
    AddsStep(p0, p, Take(p, b), piece, j);
    AddsStep(p0, p, p.(backup := p.backup + [b]), piece, j);
    AddsStep(p0, p, p.(backup2 := p.backup2 + [b]), piece, j);
    hide Take;
  }

  /** Considering pieces adds each block at most as often as its piece is touched. */
  ghost predicate Counted(s: Snapshot, q: Request, p: Picks, p': Picks, pieces: seq<nat>, ignore: seq<nat>)
    requires |s.pieceMap| == |q.bits|
  {
    forall b: PieceBlock :: Bag(p')[b] <= Bag(p)[b] + Visits(s, q, pieces, ignore, b.piece)
  }

  /** Every block of a piece nobody downloads was taken as often as its piece is touched. */
  ghost predicate Repeated(s: Snapshot, q: Request, a: seq<PieceBlock>, b: seq<PieceBlock>, pieces: seq<nat>, ignore: seq<nat>)
    requires |s.pieceMap| == |q.bits|
  {
    forall x: PieceBlock | Fresh(s, q, x) :: multiset(b)[x] >= multiset(a)[x] + Visits(s, q, pieces, ignore, x.piece)
  }

  function PieceBlocks(piece: nat, num: nat): (blocks: seq<PieceBlock>) {
    seq(num, j requires 0 <= j < num => PieceBlock(piece, j))
  }

  /** All blocks of the pieces start..end-1. */
  function RunBlocks(s: Snapshot, start: nat, end: nat): (blocks: seq<PieceBlock>)
    decreases end
  {
    if start >= end then [] else RunBlocks(s, start, end - 1) + PieceBlocks(end - 1, s.BlocksIn(end - 1))
  }

  lemma {:induction false} CountPiece(piece: nat, num: nat, b: PieceBlock)
    ensures multiset(PieceBlocks(piece, num))[b] == if b.piece == piece && b.block < num then 1 else 0
  {
    if num > 0 {
      CountPiece(piece, num - 1, b);
      assert PieceBlocks(piece, num) == PieceBlocks(piece, num - 1) + [PieceBlock(piece, num - 1)];
    }
  }

  lemma {:induction false} CountRun(s: Snapshot, start: nat, end: nat, b: PieceBlock)
    ensures multiset(RunBlocks(s, start, end))[b] == if start <= b.piece < end && b.block < s.BlocksIn(b.piece) then 1 else 0
    decreases end
  {
    if start < end {
      CountRun(s, start, end - 1, b);
      CountPiece(end - 1, s.BlocksIn(end - 1), b);
    }
  }

  lemma VisitsOne(s: Snapshot, q: Request, piece: nat, ignore: seq<nat>, x: nat)
    requires |s.pieceMap| == |q.bits|
    ensures Visits(s, q, [piece], ignore, x) == if piece !in ignore && Touches(s, q, piece, x) then 1 else 0
  {
    assert [piece][..0] == [];
  }

  lemma VisitsMore(s: Snapshot, q: Request, pieces: seq<nat>, ignore: seq<nat>, x: nat, i: nat)
    requires |s.pieceMap| == |q.bits| && i < |pieces|
    ensures Visits(s, q, pieces[..i + 1], ignore, x) == Visits(s, q, pieces[..i], ignore, x) + Visits(s, q, [pieces[i]], ignore, x)
  {
    VisitsOne(s, q, pieces[i], ignore, x);
    assert pieces[..i + 1][..i] == pieces[..i];
  }

  /** Nothing was added. */
  lemma CountedNone(s: Snapshot, q: Request, p: Picks, pieces: seq<nat>, ignore: seq<nat>)
    requires |s.pieceMap| == |q.bits|
    ensures Counted(s, q, p, p, pieces, ignore)
    ensures pieces == [] ==> Repeated(s, q, p.interesting, p.interesting, pieces, ignore)
    ensures |pieces| == 1 && pieces[0] in ignore ==> Repeated(s, q, p.interesting, p.interesting, pieces, ignore)
  {
    forall x: nat | |pieces| == 1
      ensures Visits(s, q, pieces, ignore, x) == if pieces[0] !in ignore && Touches(s, q, pieces[0], x) then 1 else 0
    {
      assert pieces == [pieces[0]];
      VisitsOne(s, q, pieces[0], ignore, x);
    }
  }

  lemma LongerHasMore(a: seq<PieceBlock>, b: seq<PieceBlock>, x: PieceBlock)
    requires a <= b
    ensures multiset(b)[x] >= multiset(a)[x]
  {
    assert b == a + b[|a|..];
  }

  /** A downloading piece adds each of its blocks once at most, and no block of a piece nobody downloads. */
  lemma CountedDownloading(s: Snapshot, q: Request, p: Picks, p': Picks, piece: nat, ignore: seq<nat>)
    requires piece < |s.pieceMap| == |q.bits| && IsPieceFree(s, piece, q.bits) && s.pieceMap[piece].downloading
    requires AddsOne(p, p', piece) && Extends(p, p')
    requires piece !in ignore && (PassedOver(s, q, piece) ==> p == p')
    ensures Counted(s, q, p, p', [piece], ignore) && Repeated(s, q, p.interesting, p'.interesting, [piece], ignore)
  {
    hide Bag;
    forall x: nat
      ensures Visits(s, q, [piece], ignore, x) == if x == piece && !PassedOver(s, q, piece) then 1 else 0
    {
      VisitsOne(s, q, piece, ignore, x);
    }
    forall b | Fresh(s, q, b)
      ensures multiset(p'.interesting)[b] >= multiset(p.interesting)[b] + Visits(s, q, [piece], ignore, b.piece)
    {
      LongerHasMore(p.interesting, p'.interesting, b);
    }
  }

  lemma BagAppended(p: Picks, p': Picks, added: seq<PieceBlock>)
    requires p'.interesting == p.interesting + added && p'.backup == p.backup && p'.backup2 == p.backup2
    ensures Bag(p') == Bag(p) + multiset(added) && multiset(p'.interesting) == multiset(p.interesting) + multiset(added)
  {
  }

  /** A piece nobody downloads adds blocks of its run, each once, and all of them unless it is cut short. */
  lemma CountedRun(s: Snapshot, q: Request, p: Picks, p': Picks, piece: nat, ignore: seq<nat>, added: seq<PieceBlock>)
    requires piece < |s.pieceMap| == |q.bits| && IsPieceFree(s, piece, q.bits) && !s.pieceMap[piece].downloading && piece !in ignore
    requires p'.interesting == p.interesting + added && p'.backup == p.backup && p'.backup2 == p.backup2
    requires var run := RunOf(s, q.bits, piece, q.whole);
      added == RunBlocks(s, run.0, run.1) || (q.whole == 0 && exists num: nat :: added == PieceBlocks(piece, num))
    ensures Counted(s, q, p, p', [piece], ignore)
    ensures added == RunBlocks(s, RunOf(s, q.bits, piece, q.whole).0, RunOf(s, q.bits, piece, q.whole).1) ==>
              Repeated(s, q, p.interesting, p'.interesting, [piece], ignore)
  {
    hide Bag, RunBlocks, PieceBlocks, RunOf, CanPick, IsPieceFree;
    var run := RunOf(s, q.bits, piece, q.whole);
    BagAppended(p, p', added);
    forall b: PieceBlock
      ensures multiset(added)[b] <= Visits(s, q, [piece], ignore, b.piece)
      ensures added == RunBlocks(s, run.0, run.1) && b.block < s.BlocksIn(b.piece) ==>
                multiset(added)[b] == Visits(s, q, [piece], ignore, b.piece)
    {
      VisitsOne(s, q, piece, ignore, b.piece);
      if added == RunBlocks(s, run.0, run.1) {
        CountRun(s, run.0, run.1, b);
      } else {
        var num: nat :| added == PieceBlocks(piece, num);
        CountPiece(piece, num, b);
      }
    }
  }

  lemma RunOfOne(s: Snapshot, q: Request, piece: nat)
    requires piece < |s.pieceMap| == |q.bits| && q.whole == 0
    ensures RunOf(s, q.bits, piece, q.whole) == (piece, piece + 1)
    ensures RunBlocks(s, piece, piece + 1) == PieceBlocks(piece, s.BlocksIn(piece))
  {
    assert RunBlocks(s, piece, piece) == [];
  }

  lemma CountedLeft(s: Snapshot, q: Request, p: Picks, p': Picks, pieces: seq<nat>, ignore: seq<nat>)
    requires |s.pieceMap| == |q.bits| && Counted(s, q, p, p', pieces, ignore)
    ensures Counted(s, q, p, p'.(left := 0), pieces, ignore)
  {
    assert Bag(p'.(left := 0)) == Bag(p');
  }

  /** One more piece was considered. */
  lemma CountedStep(s: Snapshot, q: Request, p: Picks, p0: Picks, p': Picks, pieces: seq<nat>, ignore: seq<nat>, i: nat)
    requires |s.pieceMap| == |q.bits| && i < |pieces|
    requires Counted(s, q, p, p0, pieces[..i], ignore)
    requires Counted(s, q, p0, p', [pieces[i]], ignore) || p' == p0
    ensures Counted(s, q, p, p', pieces[..i + 1], ignore) && Counted(s, q, p, p', pieces, ignore)
  {
    hide Bag, Visits;
    forall b: PieceBlock
      ensures Bag(p')[b] <= Bag(p)[b] + Visits(s, q, pieces[..i + 1], ignore, b.piece)
      ensures Bag(p')[b] <= Bag(p)[b] + Visits(s, q, pieces, ignore, b.piece)
    {
      VisitsMore(s, q, pieces, ignore, b.piece, i);
      VisitsGrow(s, q, pieces, ignore, b.piece, i + 1);
    }
  }

  lemma RepeatedStep(s: Snapshot, q: Request, p: Picks, p0: Picks, p': Picks, pieces: seq<nat>, ignore: seq<nat>, i: nat)
    requires |s.pieceMap| == |q.bits| && i < |pieces|
    requires Repeated(s, q, p.interesting, p0.interesting, pieces[..i], ignore)
    requires Repeated(s, q, p0.interesting, p'.interesting, [pieces[i]], ignore)
             || (p' == p0 && (pieces[i] < |s.pieceMap| ==> !IsPieceFree(s, pieces[i], q.bits)))
    ensures Repeated(s, q, p.interesting, p'.interesting, pieces[..i + 1], ignore)
  {
    hide Visits, Fresh, RunOf, IsPieceFree;
    forall b: PieceBlock | Fresh(s, q, b)
      ensures multiset(p'.interesting)[b] >= multiset(p.interesting)[b] + Visits(s, q, pieces[..i + 1], ignore, b.piece)
    {
      VisitsMore(s, q, pieces, ignore, b.piece, i);
      VisitsOne(s, q, pieces[i], ignore, b.piece);
    }
  }

  /** No piece that is shut gained blocks. */
  ghost predicate AddsFree(s: Snapshot, q: Request, p: Picks, p': Picks)
    requires |s.pieceMap| == |q.bits|
  {
    forall b: PieceBlock | b.piece < |s.pieceMap| && Shut(s, q, b.piece) :: Bag(p')[b] <= Bag(p)[b]
  }

  /** Each block of an open piece was added once at most, and no other. */
  ghost predicate AddsOpen(s: Snapshot, q: Request, ignore: seq<nat>, p: Picks, p': Picks)
    requires |s.pieceMap| == |q.bits|
  {
    forall b: PieceBlock :: Bag(p')[b] <= Bag(p)[b] + if Open(s, q, ignore, b.piece) then 1 else 0
  }

  lemma CountedFree(s: Snapshot, q: Request, p: Picks, p': Picks, pieces: seq<nat>, ignore: seq<nat>)
    requires |s.pieceMap| == |q.bits| && Counted(s, q, p, p', pieces, ignore)
    ensures AddsFree(s, q, p, p')
    ensures Apart(s, q) && Distinct(pieces) ==> AddsOpen(s, q, ignore, p, p')
  {
    hide Bag, Visits, Shut;
    forall b: PieceBlock
      ensures b.piece < |s.pieceMap| && Shut(s, q, b.piece) ==> Bag(p')[b] <= Bag(p)[b]
      ensures Apart(s, q) && Distinct(pieces) ==> Bag(p')[b] <= Bag(p)[b] + if Open(s, q, ignore, b.piece) then 1 else 0
    {
      if b.piece < |s.pieceMap| && Shut(s, q, b.piece) {
        VisitedOpen(s, q, pieces, ignore, b.piece);
      }
      if Apart(s, q) && Distinct(pieces) {
        VisitsOnce(s, q, pieces, ignore, b.piece);
      }
    }
  }

  lemma FreeTwice(s: Snapshot, q: Request, p: Picks, p0: Picks, p': Picks)
    requires |s.pieceMap| == |q.bits| && AddsFree(s, q, p, p0) && AddsFree(s, q, p0, p')
    ensures AddsFree(s, q, p, p')
  {
    hide Bag, Shut;
  }

  /** The piece stands among the first k of the queue. */
  ghost predicate Queued(downloads: seq<DownloadingPiece>, k: nat, x: nat) {
    exists i: nat :: i < k && i < |downloads| && downloads[i].index == x
  }

  /** Each block of the first k downloading pieces was added once at most, and no other. */
  ghost predicate AddsQueued(p: Picks, p': Picks, downloads: seq<DownloadingPiece>, k: nat) {
    forall b: PieceBlock :: Bag(p')[b] <= Bag(p)[b] + if Queued(downloads, k, b.piece) then 1 else 0
  }

  lemma AddsQueuedStep(p: Picks, p0: Picks, p': Picks, downloads: seq<DownloadingPiece>, k: nat)
    requires Sorted(downloads) && k < |downloads| && downloads[k].index >= 0
    requires AddsQueued(p, p0, downloads, k) && (p' == p0 || AddsOne(p0, p', downloads[k].index))
    ensures AddsQueued(p, p', downloads, k + 1)
  {
    hide Bag;
    forall b: PieceBlock
      ensures Bag(p')[b] <= Bag(p)[b] + if Queued(downloads, k + 1, b.piece) then 1 else 0
    {
      assert b.piece == downloads[k].index ==> !Queued(downloads, k, b.piece) && Queued(downloads, k + 1, b.piece);
      assert Queued(downloads, k, b.piece) ==> Queued(downloads, k + 1, b.piece);
    }
  }

  /** Each block of a downloading piece was added once at most, and no other. */
  ghost predicate AddsDownloading(s: Snapshot, p: Picks, p': Picks) {
    forall b: PieceBlock :: Bag(p')[b] <= Bag(p)[b] + if b.piece < |s.pieceMap| && s.pieceMap[b.piece].downloading then 1 else 0
  }

  lemma AddsQueuedNone(p: Picks, downloads: seq<DownloadingPiece>)
    ensures AddsQueued(p, p, downloads, 0)
  {
  }

  lemma DownloadingFewer(s: Snapshot, p: Picks, p0: Picks, p': Picks)
    requires AddsDownloading(s, p, p0) && Bag(p') <= Bag(p0)
    ensures AddsDownloading(s, p, p')
  {
    hide Bag;
  }

  lemma QueuedDownloading(s: Snapshot, p: Picks, p': Picks, k: nat)
    requires s.Ok() && AddsQueued(p, p', s.downloads, k)
    ensures AddsDownloading(s, p, p')
  {
    hide Bag;
    FlaggedRange(s.downloads, s.pieceMap);
  }

  /** Moving blocks put aside to the result adds none. */
  lemma Moved(a: seq<PieceBlock>, b: seq<PieceBlock>, n: nat)
    requires n <= |b|
    ensures multiset(a + b[..n]) <= multiset(a) + multiset(b)
  {
    assert b == b[..n] + b[n..];
  }

  lemma BagMoved(p: Picks, p': Picks)
    requires exists n: nat :: n <= |p.backup| && p'.interesting == p.interesting + p.backup[..n]
    requires p'.backup == [] && p'.backup2 == p.backup2
    ensures Bag(p') <= Bag(p)
  {
    var n: nat :| n <= |p.backup| && p'.interesting == p.interesting + p.backup[..n];
    Moved(p.interesting, p.backup, n);
  }

  lemma BagMoved2(p: Picks, p': Picks)
    requires exists n: nat :: n <= |p.backup2| && p'.interesting == p.interesting + p.backup2[..n]
    requires p'.backup == p.backup && p'.backup2 == []
    ensures Bag(p') <= Bag(p)
  {
    var n: nat :| n <= |p.backup2| && p'.interesting == p.interesting + p.backup2[..n];
    Moved(p.interesting, p.backup2, n);
  }

  lemma NothingAdded(s: Snapshot, q: Request, ignore: seq<nat>, p: Picks)
    requires |s.pieceMap| == |q.bits|
    ensures AddsFree(s, q, p, p) && AddsOpen(s, q, ignore, p, p)
  {
  }

  ghost predicate DistinctBlocks(blocks: seq<PieceBlock>) {
    forall i, j | 0 <= i < j < |blocks| :: blocks[i] != blocks[j]
  }

  lemma {:induction false} CountsDistinct(blocks: seq<PieceBlock>)
    ensures (forall b :: multiset(blocks)[b] <= 1) <==> DistinctBlocks(blocks)
  {
    if |blocks| > 0 {
      var n := |blocks| - 1;
      CountsDistinct(blocks[..n]);
      assert blocks == blocks[..n] + [blocks[n]];
      if DistinctBlocks(blocks) {
        assert DistinctBlocks(blocks[..n]) && blocks[n] !in blocks[..n];
      } else if !DistinctBlocks(blocks[..n]) {
        var b :| multiset(blocks[..n])[b] > 1;
        assert multiset(blocks)[b] > 1;
      } else {
        assert multiset(blocks)[blocks[n]] > 1;
      }
    }
  }

  /** After all passes: without preferring partial pieces no piece that is shut gained blocks; and unless several whole
      pieces are taken at a time, or a piece is suggested twice, no block was added twice. */
  ghost predicate Lawful(s: Snapshot, q: Request, before: seq<PieceBlock>, suggested: seq<nat>, bag: multiset<PieceBlock>)
    requires |s.pieceMap| == |q.bits|
  {
    && (!q.options.prioritizePartials ==>
          forall b: PieceBlock | b.piece < |s.pieceMap| && Shut(s, q, b.piece) :: bag[b] <= multiset(before)[b])
    && (Apart(s, q) && Distinct(suggested) ==> forall b: PieceBlock :: bag[b] <= multiset(before)[b] + 1)
  }

  /** Partial pieces first, then the suggested ones, then the rest: what is open to one pass is closed to the others. */
  lemma LawfulPick(s: Snapshot, q: Request, suggested: seq<nat>, c: Picks, c0: Picks, c1: Picks, c2: Picks)
    requires |s.pieceMap| == |q.bits| && c.backup == c.backup2 == []
    requires if q.options.prioritizePartials then AddsDownloading(s, c, c0) else c0 == c
    requires Counted(s, q, c0, c1, suggested, []) && AddsFree(s, q, c1, c2)
    requires Apart(s, q) ==> AddsOpen(s, q, suggested, c1, c2)
    ensures Lawful(s, q, c.interesting, suggested, Bag(c2))
  {
    assert Bag(c) == multiset(c.interesting);
    CountedFree(s, q, c0, c1, suggested, []);
    hide Bag, Shut, Visits, AddsOpen, Counted;
    if Apart(s, q) && Distinct(suggested) {
      forall b: PieceBlock
        ensures Bag(c2)[b] <= multiset(c.interesting)[b] + 1
      {
        CountedAt(s, q, c0, c1, suggested, [], b);
        OpenAt(s, q, suggested, c1, c2, b);
        VisitsOnce(s, q, suggested, [], b.piece);
      }
    }
  }

  lemma CountedAt(s: Snapshot, q: Request, p: Picks, p': Picks, pieces: seq<nat>, ignore: seq<nat>, b: PieceBlock)
    requires |s.pieceMap| == |q.bits| && Counted(s, q, p, p', pieces, ignore)
    ensures Bag(p')[b] <= Bag(p)[b] + Visits(s, q, pieces, ignore, b.piece)
  {
  }

  lemma OpenAt(s: Snapshot, q: Request, ignore: seq<nat>, p: Picks, p': Picks, b: PieceBlock)
    requires |s.pieceMap| == |q.bits| && AddsOpen(s, q, ignore, p, p')
    ensures Bag(p')[b] <= Bag(p)[b] + if Open(s, q, ignore, b.piece) then 1 else 0
  {
  }

  /** How often the blocks of pieces nobody downloads are listed when pieces are considered in this order. */
  ghost predicate Frequencies(s: Snapshot, q: Request, suggested: seq<nat>, order: seq<nat>, added: seq<PieceBlock>, short: bool)
    requires |s.pieceMap| == |q.bits|
  {
    forall b: PieceBlock | Fresh(s, q, b) ::
      && (q.options.sequential || q.options.rarestFirst ==>
            multiset(added)[b] <= Visits(s, q, suggested, [], b.piece) + Visits(s, q, order, suggested, b.piece))
      && (short ==> multiset(added)[b] >= Visits(s, q, suggested, [], b.piece) + Visits(s, q, order, suggested, b.piece))
  }

  lemma AddedPart(before: seq<PieceBlock>, taken: seq<PieceBlock>, b: PieceBlock)
    requires before <= taken
    ensures multiset(taken)[b] == multiset(before)[b] + multiset(taken[|before|..])[b]
  {
    assert taken == before + taken[|before|..];
  }

  lemma FrequenciesOf(s: Snapshot, q: Request, suggested: seq<nat>, order: seq<nat>, c: Picks, c0: Picks, c1: Picks, c2: Picks,
                      taken: seq<PieceBlock>, short: bool)
    requires |s.pieceMap| == |q.bits| && c.backup == c.backup2 == []
    requires if q.options.prioritizePartials then AddsDownloading(s, c, c0) else c0 == c
    requires Extends(c, c0) && Counted(s, q, c0, c1, suggested, [])
    requires q.options.sequential || q.options.rarestFirst ==> Counted(s, q, c1, c2, order, suggested)
    requires Extends(c1, c2) && c2.interesting <= taken && c.interesting <= taken && multiset(taken) <= Bag(c2)
    requires short ==> Repeated(s, q, c0.interesting, c1.interesting, suggested, [])
    requires short && order != [] ==> Repeated(s, q, c1.interesting, c2.interesting, order, suggested)
    ensures Frequencies(s, q, suggested, order, taken[|c.interesting|..], short)
  {
    assert Bag(c) == multiset(c.interesting);
    hide Bag, Counted;
    forall b: PieceBlock | Fresh(s, q, b)
      ensures var count, visits := multiset(taken[|c.interesting|..])[b], Visits(s, q, suggested, [], b.piece) + Visits(s, q, order, suggested, b.piece);
        (q.options.sequential || q.options.rarestFirst ==> count <= visits) && (short ==> count >= visits)
    {
      AddedPart(c.interesting, taken, b);
      CountedAt(s, q, c0, c1, suggested, [], b);
      if q.options.sequential || q.options.rarestFirst { CountedAt(s, q, c1, c2, order, suggested, b); }
      LongerHasMore(c.interesting, c0.interesting, b);
      LongerHasMore(c1.interesting, c2.interesting, b);
      LongerHasMore(c2.interesting, taken, b);
    }
  }

  lemma {:induction false} Multiples(x: nat, y: nat, size: nat)
    requires x < y
    ensures x * size + size <= y * size
  {
    if x + 1 < y {
      Multiples(x, y - 1, size);
    }
  }

  /** Different blocks have different places in the torrent. */
  lemma PlacesDiffer(a: PieceBlock, b: PieceBlock, size: nat)
    requires a.block < size && b.block < size && a != b
    ensures a.piece * size + a.block != b.piece * size + b.block
  {
    if a.piece < b.piece {
      Multiples(a.piece, b.piece, size);
    } else if b.piece < a.piece {
      Multiples(b.piece, a.piece, size);
    }
  }

  lemma {:induction false} Pigeonhole(places: seq<int>, n: nat)
    requires Distinct(places) && forall i | 0 <= i < |places| :: 0 <= places[i] < n
    ensures |places| <= n
  {
    if |places| > 0 {
      assert 0 <= places[0] < n;
      if k :| 0 <= k < |places| && places[k] == n - 1 {
        Pigeonhole(places[..k] + places[k + 1..], n - 1);
      } else {
        Pigeonhole(places, n - 1);
      }
    }
  }

  /** More blocks than there are cannot all be different. */
  lemma AtMostAll(blocks: seq<PieceBlock>, n: nat, size: nat)
    requires DistinctBlocks(blocks)
    requires forall i | 0 <= i < |blocks| :: blocks[i].piece < n && blocks[i].block < size
    ensures |blocks| <= n * size
  {
    var places: seq<int> := seq(|blocks|, i requires 0 <= i < |blocks| => blocks[i].piece * size + blocks[i].block);
    forall i | 0 <= i < |places|
      ensures 0 <= places[i] < n * size
    {
      Multiples(blocks[i].piece, n, size);
    }
    forall i, j | 0 <= i < j < |places|
      ensures places[i] != places[j]
    {
      PlacesDiffer(blocks[i], blocks[j], size);
    }
    Pigeonhole(places, n * size);
  }

  lemma {:induction false} VisitsJoin(s: Snapshot, q: Request, a: seq<nat>, b: seq<nat>, ignore: seq<nat>, x: nat)
    requires |s.pieceMap| == |q.bits|
    ensures Visits(s, q, a + b, ignore, x) == Visits(s, q, a, ignore, x) + Visits(s, q, b, ignore, x)
  {
    if b == [] {
      assert a + b == a;
    } else {
      assert (a + b)[..|a + b| - 1] == a + b[..|b| - 1];
      VisitsJoin(s, q, a, b[..|b| - 1], ignore, x);
    }
  }

  /** One list after the other. */
  lemma CountedJoin(s: Snapshot, q: Request, p: Picks, p0: Picks, p': Picks, a: seq<nat>, b: seq<nat>, ignore: seq<nat>)
    requires |s.pieceMap| == |q.bits| && Counted(s, q, p, p0, a, ignore) && Counted(s, q, p0, p', b, ignore)
    ensures Counted(s, q, p, p', a + b, ignore)
    ensures Repeated(s, q, p.interesting, p0.interesting, a, ignore) && Repeated(s, q, p0.interesting, p'.interesting, b, ignore) ==>
              Repeated(s, q, p.interesting, p'.interesting, a + b, ignore)
  {
    hide Bag, Visits, Fresh;
    forall x: nat
      ensures Visits(s, q, a + b, ignore, x) == Visits(s, q, a, ignore, x) + Visits(s, q, b, ignore, x)
    {
      VisitsJoin(s, q, a, b, ignore, x);
    }
  }

  lemma CountedPrefix(s: Snapshot, q: Request, p: Picks, p': Picks, a: seq<nat>, b: seq<nat>, ignore: seq<nat>)
    requires |s.pieceMap| == |q.bits| && Counted(s, q, p, p', a, ignore) && a <= b
    ensures Counted(s, q, p, p', b, ignore)
  {
    hide Bag, Visits;
    forall x: nat
      ensures Visits(s, q, a, ignore, x) <= Visits(s, q, b, ignore, x)
    {
      VisitsGrow(s, q, b, ignore, x, |a|);
      assert b[..|a|] == a;
    }
  }

  /** What considering one piece added is of pieces that it touches. */
  lemma AddedTouched(s: Snapshot, q: Request, p: Picks, p': Picks, piece: nat, ignore: seq<nat>)
    requires |s.pieceMap| == |q.bits| && Extends(p, p') && (Counted(s, q, p, p', [piece], ignore) || p' == p)
    ensures |p'.interesting| > |p.interesting| ==> piece !in ignore
    ensures forall m | |p.interesting| <= m < |p'.interesting| :: Touches(s, q, piece, p'.interesting[m].piece)
  {
    hide Visits, Touches, Bag, Counted;
    if |p'.interesting| > |p.interesting| {
      AddedAt(s, q, p, p', piece, ignore, |p.interesting|);
    }
    forall m | |p.interesting| <= m < |p'.interesting|
      ensures Touches(s, q, piece, p'.interesting[m].piece)
    {
      AddedAt(s, q, p, p', piece, ignore, m);
    }
  }

  lemma AddedAt(s: Snapshot, q: Request, p: Picks, p': Picks, piece: nat, ignore: seq<nat>, m: nat)
    requires |s.pieceMap| == |q.bits| && Extends(p, p') && (Counted(s, q, p, p', [piece], ignore) || p' == p)
    requires |p.interesting| <= m < |p'.interesting|
    ensures piece !in ignore && Touches(s, q, piece, p'.interesting[m].piece)
  {
    hide Visits, Touches, Bag, Counted;
    var b := p'.interesting[m];
    assert p' != p;
    CountedAt(s, q, p, p', [piece], ignore, b);
    VisitsOne(s, q, piece, ignore, b.piece);
    BagLarger(p, p', m);
  }

  lemma BagLarger(p: Picks, p': Picks, m: nat)
    requires Extends(p, p') && |p.interesting| <= m < |p'.interesting|
    ensures Bag(p')[p'.interesting[m]] > Bag(p)[p'.interesting[m]]
  {
    var b := p'.interesting[m];
    assert p'.interesting == p.interesting + p'.interesting[|p.interesting|..];
    assert b == p'.interesting[|p.interesting|..][m - |p.interesting|];
    LongerHasMore(p.backup, p'.backup, b);
    LongerHasMore(p.backup2, p'.backup2, b);
  }

  /** A piece that is not shut touches itself. */
  lemma TouchesItself(s: Snapshot, q: Request, x: nat)
    requires x < |s.pieceMap| == |q.bits| && !Shut(s, q, x)
    ensures Touches(s, q, x, x)
  {
  }
}
