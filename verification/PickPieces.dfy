/** Choosing blocks to request from one peer. */
module PickPieces {
  import opened PieceTypes
  import opened Downloads
  import opened FullFlags
  import opened PickLaws
  import B = Buckets
  import C = Cursors
  import P = PiecePicker

  /** Every block of a piece in progress came, or is to come, from one peer. */
  ghost predicate Exclusive(blocks: seq<BlockInfo>, num: nat, peer: nat)
    requires num <= |blocks|
  {
    forall j | 0 <= j < num :: blocks[j].state == StateNone || blocks[j].peer == peer
  }

  /** No other connected peer has a request outstanding. */
  ghost predicate ExclusiveActive(blocks: seq<BlockInfo>, num: nat, peer: nat)
    requires num <= |blocks|
  {
    forall j | 0 <= j < num :: blocks[j].state != StateRequested || blocks[j].peer == peer || blocks[j].peer == 0
  }

  method RequestedFrom(blocks: seq<BlockInfo>, num: nat, peer: nat) returns (exclusive: bool, exclusiveActive: bool)
    requires num <= |blocks|
    ensures exclusive <==> Exclusive(blocks, num, peer)
    ensures exclusiveActive <==> ExclusiveActive(blocks, num, peer)
  {
    exclusive, exclusiveActive := true, true;
    for j := 0 to num
      invariant exclusive <==> Exclusive(blocks, j, peer)
      invariant exclusiveActive && ExclusiveActive(blocks, j, peer)
    {
      var info := blocks[j];
      if info.state != StateNone && info.peer != peer {
        exclusive := false;
        if info.state == StateRequested && info.peer != 0 {
          exclusiveActive := false;
          return;
        }
      }
    }
  }

  /** Speeds one step apart. */
  predicate Neighbours(a: Speed, b: Speed) {
    || (a.SpeedNone? && b.Slow?) || (a.Slow? && b.SpeedNone?) || (a.Slow? && b.Medium?) || (a.Medium? && b.Slow?)
    || (a.Medium? && b.Fast?) || (a.Fast? && b.Medium?)
  }

  /** Whether this peer takes the free blocks of a piece as they come (0), or puts them aside, to be taken when too little
      else is found (1) or last of all (2). Aside go pieces that other connected peers are at work on: all of them when
      whole pieces are wanted, and else, when speeds are to match, those of another speed than the peer's. */
  ghost function Choice(s: Snapshot, q: Request, piece: nat): (c: nat)
    ensures c <= 2
  {
    var v := View(s.downloads, s.slabs, piece);
    if v.NotDownloading? || |v.blocks| < s.BlocksIn(piece) || ExclusiveActive(v.blocks, s.BlocksIn(piece), q.peer) then 0
    else if q.whole > 0 then 2
    else if !q.options.speedAffinity || v.speed.SpeedNone? || v.speed == q.speed then 0
    else if Neighbours(v.speed, q.speed) then 1 else 2
  }

  ghost predicate AllChoice(s: Snapshot, q: Request, blocks: seq<PieceBlock>, from: nat, c: nat) {
    forall i | from <= i < |blocks| :: Choice(s, q, blocks[i].piece) == c
  }

  /** A block that is free: in range, of a piece the peer has and we lack, and not yet asked for. A filtered
      piece only qualifies while it is downloading; a peer on parole only touches pieces all its own. */
  ghost predicate Free(s: Snapshot, q: Request, b: PieceBlock) {
    && b.piece < |s.pieceMap| == |q.bits| && q.bits[b.piece] && !s.pieceMap[b.piece].Have()
    && b.block < s.BlocksIn(b.piece)
    && (s.pieceMap[b.piece].Filtered() ==> s.pieceMap[b.piece].downloading)
    && var v := View(s.downloads, s.slabs, b.piece);
       v.PieceView? ==>
         && s.BlocksIn(b.piece) <= |v.blocks| && v.blocks[b.block].state == StateNone
         && (q.options.onParole ==> Exclusive(v.blocks, s.BlocksIn(b.piece), q.peer))
  }

  ghost predicate AllFree(s: Snapshot, q: Request, blocks: seq<PieceBlock>, from: nat) {
    forall i | from <= i < |blocks| :: Free(s, q, blocks[i])
  }

  /** A block worth requesting: a free one, and of a piece that is filtered, or marked full, only when partial pieces
      come first. */
  ghost predicate Offer(s: Snapshot, q: Request, b: PieceBlock) {
    && Free(s, q, b)
    && (s.pieceMap[b.piece].Filtered() || (s.pieceMap[b.piece].downloading && s.pieceMap[b.piece].full) ==> q.options.prioritizePartials)
  }

  ghost predicate Offers(s: Snapshot, q: Request, blocks: seq<PieceBlock>, from: nat) {
    forall i | from <= i < |blocks| :: Offer(s, q, blocks[i])
  }

  /** A pick in progress: `start` blocks were there before, `wanted` are asked for. Only offers were added;
      what is left to find is exact, unless whole pieces were taken, which may overshoot. */
  ghost predicate Found(s: Snapshot, q: Request, before: seq<PieceBlock>, wanted: nat, p: Picks) {
    && before <= p.interesting
    && AllFree(s, q, p.interesting, |before|) && AllFree(s, q, p.backup, 0) && AllFree(s, q, p.backup2, 0)
    && wanted - (|p.interesting| - |before|) <= p.left <= wanted
    && (q.whole == 0 ==> p.left == wanted - (|p.interesting| - |before|) >= 0)
  }

  /** And as long as partial pieces are not preferred, only blocks that are not to be put aside were taken. */
  ghost predicate Picking(s: Snapshot, q: Request, before: seq<PieceBlock>, wanted: nat, p: Picks) {
    && Found(s, q, before, wanted, p) && AllChoice(s, q, p.backup, 0, 1) && AllChoice(s, q, p.backup2, 0, 2)
    && (!q.options.prioritizePartials ==> AllChoice(s, q, p.interesting, |before|, 0))
  }

  /** Every block of a piece is among the given ones. */
  ghost predicate AllPicked(s: Snapshot, blocks: seq<PieceBlock>, piece: nat) {
    forall j | 0 <= j < s.BlocksIn(piece) :: PieceBlock(piece, j) in blocks
  }

  /** A piece that nobody downloads and this peer could provide has been taken completely. */
  ghost predicate Covered(s: Snapshot, q: Request, blocks: seq<PieceBlock>, piece: nat)
    requires piece < |s.pieceMap| == |q.bits|
  {
    CanPick(s, piece, q.bits) ==> AllPicked(s, blocks, piece)
  }

  /** What was added are blocks of one piece. */
  ghost predicate OnlyFrom(a: seq<PieceBlock>, b: seq<PieceBlock>, piece: nat) {
    a <= b && forall m | |a| <= m < |b| :: b[m].piece == piece
  }

  /** Every block a piece has to offer is taken or put aside, or more is put aside than is still to be found. */
  ghost predicate Seen(s: Snapshot, q: Request, p: Picks, piece: nat) {
    || |p.backup| >= p.left || |p.backup2| >= p.left
    || forall j: nat | Free(s, q, PieceBlock(piece, j)) ::
         PieceBlock(piece, j) in p.interesting || PieceBlock(piece, j) in p.backup || PieceBlock(piece, j) in p.backup2
  }

  /** A downloading piece that is looked at in its turn, unless all partial pieces came first. */
  predicate Partial(s: Snapshot, q: Request, piece: nat)
    requires piece < |s.pieceMap| == |q.bits|
  {
    IsPieceFree(s, piece, q.bits) && s.pieceMap[piece].downloading && !s.pieceMap[piece].full && !q.options.prioritizePartials
  }

  /** Every block a piece has to offer is where it belongs: taken, or put aside unless enough of its kind are. */
  ghost predicate Settled(s: Snapshot, q: Request, p: Picks, piece: nat) {
    match Choice(s, q, piece)
    case 0 => Taken(s, q, p.interesting, piece)
    case 1 => |p.backup| >= p.left || Taken(s, q, p.interesting + p.backup, piece)
    case _ => |p.backup2| >= p.left || Taken(s, q, p.interesting + p.backup2, piece)
  }

  ghost predicate Considered(s: Snapshot, q: Request, p: Picks, piece: nat) {
    && piece < |s.pieceMap| == |q.bits|
    && Covered(s, q, p.interesting, piece) && (Partial(s, q, piece) ==> Settled(s, q, p, piece))
  }

  lemma SeenStays(s: Snapshot, q: Request, p: Picks, p': Picks, piece: nat)
    requires Extends(p, p') && Seen(s, q, p, piece)
    ensures Seen(s, q, p', piece)
  {
    hide Free;
    PrefixIn(p.interesting, p'.interesting);
    PrefixIn(p.backup, p'.backup);
    PrefixIn(p.backup2, p'.backup2);
  }

  lemma SettledStays(s: Snapshot, q: Request, p: Picks, p': Picks, piece: nat)
    requires Extends(p, p') && Settled(s, q, p, piece)
    ensures Settled(s, q, p', piece)
  {
    hide Free, Choice;
    PrefixIn(p.interesting, p'.interesting);
    PrefixIn(p.backup, p'.backup);
    PrefixIn(p.backup2, p'.backup2);
  }

  /** Nothing is put aside where it does not belong, so what was seen is settled. */
  lemma SettledIs(s: Snapshot, q: Request, before: seq<PieceBlock>, wanted: nat, p: Picks, piece: nat)
    requires Picking(s, q, before, wanted, p)
    requires || (Choice(s, q, piece) == 1 && |p.backup| >= p.left) || (Choice(s, q, piece) == 2 && |p.backup2| >= p.left)
             || forall j: nat | Free(s, q, PieceBlock(piece, j)) ::
                  PieceBlock(piece, j) in p.interesting || PieceBlock(piece, j) in p.backup || PieceBlock(piece, j) in p.backup2
    ensures Settled(s, q, p, piece)
  {
    hide Free, Choice, Found;
  }

  lemma SettledSeen(s: Snapshot, q: Request, p: Picks, piece: nat)
    requires Settled(s, q, p, piece)
    ensures Seen(s, q, p, piece)
  {
    hide Free, Choice;
  }

  lemma PrefixIn<T>(a: seq<T>, b: seq<T>)
    requires a <= b
    ensures forall x | x in a :: x in b
  {
    forall x | x in a
      ensures x in b
    {
      var i :| 0 <= i < |a| && a[i] == x;
      assert b[i] == x;
    }
  }

  lemma CoveredStays(s: Snapshot, q: Request, a: seq<PieceBlock>, b: seq<PieceBlock>, piece: nat)
    requires piece < |s.pieceMap| == |q.bits| && a <= b && Covered(s, q, a, piece)
    ensures Covered(s, q, b, piece)
  {
    PrefixIn(a, b);
  }

  /** While blocks are still missing the count is exact. */
  ghost predicate Exact(before: seq<PieceBlock>, wanted: nat, p: Picks) {
    p.left == wanted - (|p.interesting| - |before|)
  }

  lemma TakeOffer(s: Snapshot, q: Request, before: seq<PieceBlock>, wanted: nat, p: Picks, b: PieceBlock)
    requires Picking(s, q, before, wanted, p) && Free(s, q, b) && (q.whole == 0 ==> p.left > 0) && Exact(before, wanted, p)
    requires Choice(s, q, b.piece) == 0
    ensures Picking(s, q, before, wanted, Take(p, b)) && Extends(p, Take(p, b)) && Exact(before, wanted, Take(p, b))
    ensures Take(p, b).backup == p.backup && Take(p, b).backup2 == p.backup2 && Take(p, b).left == p.left - 1
  {
    hide Free, Choice;
  }

  lemma KeepBackup(s: Snapshot, q: Request, before: seq<PieceBlock>, wanted: nat, p: Picks, b: PieceBlock)
    requires Picking(s, q, before, wanted, p) && Free(s, q, b) && Exact(before, wanted, p)
    ensures Choice(s, q, b.piece) == 1 ==> Picking(s, q, before, wanted, p.(backup := p.backup + [b]))
    ensures Choice(s, q, b.piece) == 2 ==> Picking(s, q, before, wanted, p.(backup2 := p.backup2 + [b]))
    ensures Exact(before, wanted, p.(backup := p.backup + [b])) && Exact(before, wanted, p.(backup2 := p.backup2 + [b]))
  {
    hide Free, Choice;
  }

  function Distance(a: Speed, b: Speed): nat {
    var x := if a.SpeedNone? then 0 else if a.Slow? then 1 else if a.Medium? then 2 else 3;
    var y := if b.SpeedNone? then 0 else if b.Slow? then 1 else if b.Medium? then 2 else 3;
    if x < y then y - x else x - y
  }

  /** The offers of a downloading piece are its free blocks, as long as parole allows the piece. */
  lemma PartialOffer(s: Snapshot, q: Request, k: nat, j: nat)
    requires s.Ok() && k < |s.downloads| && |q.bits| == |s.pieceMap|
    ensures 0 <= s.downloads[k].index < |s.pieceMap| && s.downloads[k].info < |s.slabs|
    ensures s.BlocksIn(s.downloads[k].index) <= |s.slabs[s.downloads[k].info]|
    ensures s.pieceMap[s.downloads[k].index].downloading
    ensures View(s.downloads, s.slabs, s.downloads[k].index) == PieceView(s.downloads[k].speed, s.slabs[s.downloads[k].info])
    ensures j < s.BlocksIn(s.downloads[k].index) && q.bits[s.downloads[k].index]
              && s.slabs[s.downloads[k].info][j].state == StateNone
              && (q.options.onParole ==> Exclusive(s.slabs[s.downloads[k].info], s.BlocksIn(s.downloads[k].index), q.peer))
            <==> Free(s, q, PieceBlock(s.downloads[k].index, j))
  {
    FlaggedRange(s.downloads, s.pieceMap);
    assert Sorted(s.downloads);
    ViewPresent(s.downloads, s.slabs, k);
    assert PieceOk(s.downloads[k], s.slabs[s.downloads[k].info], s.BlocksIn(s.downloads[k].index));
  }

  /** Nothing of such a piece is ever put aside: no block of it is free, or no other peer is at work on it. */
  ghost predicate Idle(s: Snapshot, q: Request, d: DownloadingPiece) {
    && d.info < |s.slabs| && s.BlocksIn(d.index) <= |s.slabs[d.info]|
    && (|| ExclusiveActive(s.slabs[d.info], s.BlocksIn(d.index), q.peer)
        || forall j | 0 <= j < s.BlocksIn(d.index) :: s.slabs[d.info][j].state != StateNone)
  }

  /** Whether blocks are ever put aside: with whole pieces wanted, or peers of other speeds avoided. */
  predicate PutsAside(q: Request) {
    q.whole > 0 || q.options.speedAffinity
  }

  lemma PutsAsideIs(q: Request)
    ensures PutsAside(q) <==> q.whole > 0 || q.options.speedAffinity
  {
  }

  /** A piece with a free block on which another peer is at work is not idle. */
  lemma NotIdle(s: Snapshot, q: Request, d: DownloadingPiece)
    requires d.info < |s.slabs| && s.BlocksIn(d.index) <= |s.slabs[d.info]|
    ensures Idle(s, q, d) && !ExclusiveActive(s.slabs[d.info], s.BlocksIn(d.index), q.peer) ==>
              forall j | 0 <= j < s.BlocksIn(d.index) :: s.slabs[d.info][j].state != StateNone
  {
  }

  /** What block j of a downloading piece adds: a free one is taken, or put aside unless enough of its kind are. */
  ghost function WithBlock(s: Snapshot, q: Request, piece: nat, p: Picks, j: nat): Picks {
    var b, c := PieceBlock(piece, j), Choice(s, q, piece);
    if !Free(s, q, b) then p
    else if c == 0 then if q.whole == 0 && p.left <= 0 then p else Take(p, b)
    else if c == 1 then if |p.backup| >= p.left then p else p.(backup := p.backup + [b])
    else if q.whole == 0 && |p.backup2| >= p.left then p else p.(backup2 := p.backup2 + [b])
  }

  ghost function WithBlocks(s: Snapshot, q: Request, piece: nat, p: Picks, n: nat): Picks {
    if n == 0 then p else WithBlock(s, q, piece, WithBlocks(s, q, piece, p, n - 1), n - 1)
  }

  /** What the whole piece adds. With whole pieces, one to be put aside is passed over if enough is; and more may be taken
      than is needed. */
  ghost function WithPiece(s: Snapshot, q: Request, piece: nat, p: Picks): Picks {
    if q.whole > 0 && Choice(s, q, piece) == 2 && |p.backup2| >= p.left then p
    else
      var p' := WithBlocks(s, q, piece, p, s.BlocksIn(piece));
      if p'.left < 0 then p'.(left := 0) else p'
  }

  /** Once nothing more of a kind is needed, the remaining blocks add nothing. */
  lemma {:induction false} WithNoMore(s: Snapshot, q: Request, piece: nat, p: Picks, j: nat, n: nat)
    requires j <= n && q.whole == 0
    requires var p', c := WithBlocks(s, q, piece, p, j), Choice(s, q, piece);
      (c == 0 && p'.left <= 0) || (c == 1 && |p'.backup| >= p'.left) || (c == 2 && |p'.backup2| >= p'.left)
    ensures WithBlocks(s, q, piece, p, n) == WithBlocks(s, q, piece, p, j)
  {
    hide Choice, Free;
    if j < n { WithNoMore(s, q, piece, p, j, n - 1); }
  }

  lemma WithNoMoreFor(s: Snapshot, q: Request, piece: nat, p: Picks, j: nat, n: nat)
    requires j <= n && q.whole == 0
    ensures var p', c := WithBlocks(s, q, piece, p, j), Choice(s, q, piece);
      (c == 0 && p'.left <= 0) || (c == 1 && |p'.backup| >= p'.left) || (c == 2 && |p'.backup2| >= p'.left)
      ==> WithBlocks(s, q, piece, p, n) == p'
  {
    hide Choice, Free, WithBlocks;
    var p', c := WithBlocks(s, q, piece, p, j), Choice(s, q, piece);
    if (c == 0 && p'.left <= 0) || (c == 1 && |p'.backup| >= p'.left) || (c == 2 && |p'.backup2| >= p'.left) {
      WithNoMore(s, q, piece, p, j, n);
    }
  }

  lemma {:induction false} WithNone(s: Snapshot, q: Request, piece: nat, p: Picks, n: nat)
    requires forall j: nat | j < n :: !Free(s, q, PieceBlock(piece, j))
    ensures WithBlocks(s, q, piece, p, n) == p
  {
    hide Choice, Free;
    if n > 0 { WithNone(s, q, piece, p, n - 1); }
  }

  /** The steps of the fold, and where it ends. */
  lemma WithStep(s: Snapshot, q: Request, piece: nat, p: Picks, j: nat)
    ensures WithBlocks(s, q, piece, p, 0) == p
    ensures var p', b, c := WithBlocks(s, q, piece, p, j), PieceBlock(piece, j), Choice(s, q, piece);
      WithBlocks(s, q, piece, p, j + 1) ==
      if !Free(s, q, b) then p'
      else if c == 0 then if q.whole == 0 && p'.left <= 0 then p' else Take(p', b)
      else if c == 1 then if |p'.backup| >= p'.left then p' else p'.(backup := p'.backup + [b])
      else if q.whole == 0 && |p'.backup2| >= p'.left then p' else p'.(backup2 := p'.backup2 + [b])
  {
    hide Choice, Free;
  }

  lemma WithPieceIs(s: Snapshot, q: Request, piece: nat, p: Picks)
    ensures q.whole > 0 && Choice(s, q, piece) == 2 && |p.backup2| >= p.left ==> WithPiece(s, q, piece, p) == p
    ensures !(q.whole > 0 && Choice(s, q, piece) == 2 && |p.backup2| >= p.left) ==>
              var p' := WithBlocks(s, q, piece, p, s.BlocksIn(piece));
              WithPiece(s, q, piece, p) == if p'.left < 0 then p'.(left := 0) else p'
    ensures p.left > 0 && (forall j: nat | j < s.BlocksIn(piece) :: !Free(s, q, PieceBlock(piece, j))) ==> WithPiece(s, q, piece, p) == p
  {
    hide Choice, Free;
    if forall j: nat | j < s.BlocksIn(piece) :: !Free(s, q, PieceBlock(piece, j)) { WithNone(s, q, piece, p, s.BlocksIn(piece)); }
  }

  /** Takes free blocks of one downloading piece, or puts them aside when its speed does not match or
      others are at work on it. */
  method AddBlocksDownloading(s: Snapshot, q: Request, ghost before: seq<PieceBlock>, ghost wanted: nat, k: nat, p: Picks)
    returns (p': Picks)
    requires s.Ok() && |q.bits| == |s.pieceMap| && k < |s.downloads|
    requires Picking(s, q, before, wanted, p) && p.left > 0 && Exact(before, wanted, p)
    ensures Picking(s, q, before, wanted, p') && Extends(p, p') && (p'.left > 0 ==> Exact(before, wanted, p'))
    ensures s.downloads[k].index >= 0 && From(p, p', s.downloads[k].index) && AddsOne(p, p', s.downloads[k].index)
    ensures p'.left > 0 ==> Settled(s, q, p', s.downloads[k].index)
    ensures AllChoice(s, q, p'.interesting, |p.interesting|, 0)
    ensures Idle(s, q, s.downloads[k]) || !PutsAside(q) ==> p'.backup == p.backup && p'.backup2 == p.backup2
    ensures p' == WithPiece(s, q, s.downloads[k].index, p)
  {
    hide *;
    p' := p;
    PutsAsideIs(q);
    PartialOffer(s, q, k, 0);
    ChoiceIs(s, q, k);
    NoneTaken(s, q, p);
    LookedNone(s, q, p, s.downloads[k].index);
    var d := s.downloads[k];
    forall j: nat
      ensures Free(s, q, PieceBlock(d.index, j)) ==>
                && q.bits[d.index] && j < s.BlocksIn(d.index) && s.slabs[d.info][j].state == StateNone
                && (q.options.onParole ==> Exclusive(s.slabs[d.info], s.BlocksIn(d.index), q.peer))
    {
      PartialOffer(s, q, k, j);
    }
    var num := s.BlocksIn(d.index);
    WithPieceIs(s, q, d.index, p);
    WithStep(s, q, d.index, p, 0);
    NotIdle(s, q, d);
    SettledAtEnd(s, q, before, wanted, p, p, d.index, num);
    if !q.bits[d.index] { return; }
    var exclusive, exclusiveActive := RequestedFrom(s.slabs[d.info], num, q.peer);
    if q.options.onParole && !exclusive { return; }
    if q.whole > 0 && !exclusiveActive {
      if |p'.backup2| >= p'.left { return; }
      p' := SetAside(s, q, before, wanted, k, p');
      return;
    }
    for j := 0 to num
      invariant AllChoice(s, q, p'.interesting, |p.interesting|, 0) && p' == WithBlocks(s, q, d.index, p, j)
      invariant Picking(s, q, before, wanted, p') && Exact(before, wanted, p') && Looked(s, q, p, p', d.index, j)
      invariant q.whole == 0 ==> p'.left > 0
      invariant Idle(s, q, d) || !PutsAside(q) ==> p'.backup == p.backup && p'.backup2 == p.backup2
    {
      var b := PieceBlock(d.index, j);
      WithStep(s, q, d.index, p, j);
      PutOne(s, q, p, p', d.index, j);
      LookedAny(s, q, p, p', d.index, j);
      if s.slabs[d.info][j].state == StateNone {
        PartialOffer(s, q, k, j);
        if d.speed != SpeedNone && d.speed != q.speed && !exclusiveActive && q.options.speedAffinity {
          KeepBackup(s, q, before, wanted, p', b);
          if Distance(d.speed, q.speed) == 1 {
            if |p'.backup| >= p'.left {
              SettledAtEnd(s, q, before, wanted, p, p', d.index, num);
              WithNoMoreFor(s, q, d.index, p, j, num);
              return;
            }
            p' := p'.(backup := p'.backup + [b]);
          } else {
            if |p'.backup2| >= p'.left {
              SettledAtEnd(s, q, before, wanted, p, p', d.index, num);
              WithNoMoreFor(s, q, d.index, p, j, num);
              return;
            }
            p' := p'.(backup2 := p'.backup2 + [b]);
          }
        } else {
          TakeOffer(s, q, before, wanted, p', b);
          MoreTaken(s, q, p, p', b);
          p' := Take(p', b);
          if q.whole == 0 && p'.left <= 0 {
            LookedAny(s, q, p, p', d.index, j + 1);
            WithNoMoreFor(s, q, d.index, p, j + 1, num);
            return;
          }
        }
      }
    }
    SettledAtEnd(s, q, before, wanted, p, p', d.index, num);
    LookedAny(s, q, p, p', d.index, num);
    if p'.left <= 0 {
      LeftOver(s, q, before, wanted, p');
      p' := p'.(left := 0);
    }
  }

  /** Puts every free block of a downloading piece aside. */
  method SetAside(s: Snapshot, q: Request, ghost before: seq<PieceBlock>, ghost wanted: nat, k: nat, p: Picks)
    returns (p': Picks)
    requires s.Ok() && |q.bits| == |s.pieceMap| && k < |s.downloads|
    requires 0 <= s.downloads[k].index < |q.bits| && q.bits[s.downloads[k].index] && s.downloads[k].info < |s.slabs|
    requires q.options.onParole ==>
               && s.BlocksIn(s.downloads[k].index) <= |s.slabs[s.downloads[k].info]|
               && Exclusive(s.slabs[s.downloads[k].info], s.BlocksIn(s.downloads[k].index), q.peer)
    requires Picking(s, q, before, wanted, p) && Exact(before, wanted, p) && Choice(s, q, s.downloads[k].index) == 2 && q.whole > 0
    ensures Picking(s, q, before, wanted, p') && Extends(p, p') && Exact(before, wanted, p') && p'.interesting == p.interesting && p'.left == p.left
    ensures p' == WithBlocks(s, q, s.downloads[k].index, p, s.BlocksIn(s.downloads[k].index))
    ensures From(p, p', s.downloads[k].index) && Settled(s, q, p', s.downloads[k].index) && AddsOne(p, p', s.downloads[k].index)
    ensures s.BlocksIn(s.downloads[k].index) <= |s.slabs[s.downloads[k].info]|
    ensures (forall j | 0 <= j < s.BlocksIn(s.downloads[k].index) :: s.slabs[s.downloads[k].info][j].state != StateNone) ==>
              p'.backup == p.backup && p'.backup2 == p.backup2
  {
    hide *;
    p' := p;
    PartialOffer(s, q, k, 0);
    LookedNone(s, q, p, s.downloads[k].index);
    var d := s.downloads[k];
    WithStep(s, q, d.index, p, 0);
    for j := 0 to s.BlocksIn(d.index)
      invariant Picking(s, q, before, wanted, p') && Exact(before, wanted, p') && Looked(s, q, p, p', d.index, j)
      invariant p'.interesting == p.interesting && p'.left == p.left && p' == WithBlocks(s, q, d.index, p, j)
      invariant (forall i | 0 <= i < s.BlocksIn(d.index) :: s.slabs[d.info][i].state != StateNone) ==>
                  p'.backup == p.backup && p'.backup2 == p.backup2
    {
      PartialOffer(s, q, k, j);
      WithStep(s, q, d.index, p, j);
      PutOne(s, q, p, p', d.index, j);
      if s.slabs[d.info][j].state == StateNone {
        KeepBackup(s, q, before, wanted, p', PieceBlock(d.index, j));
        p' := p'.(backup2 := p'.backup2 + [PieceBlock(d.index, j)]);
      }
    }
    forall j: nat
      ensures Free(s, q, PieceBlock(d.index, j)) ==> j < s.BlocksIn(d.index)
    {
      PartialOffer(s, q, k, j);
    }
    SettledAtEnd(s, q, before, wanted, p, p', d.index, s.BlocksIn(d.index));
    LookedAny(s, q, p, p', d.index, s.BlocksIn(d.index));
  }

  lemma NoneTaken(s: Snapshot, q: Request, p: Picks)
    ensures AllChoice(s, q, p.interesting, |p.interesting|, 0)
  {
  }

  lemma MoreTaken(s: Snapshot, q: Request, p: Picks, p': Picks, b: PieceBlock)
    requires AllChoice(s, q, p'.interesting, |p.interesting|, 0) && Choice(s, q, b.piece) == 0
    ensures AllChoice(s, q, Take(p', b).interesting, |p.interesting|, 0)
  {
    hide Choice;
  }

  /** What the tests of `AddBlocksDownloading` come to. */
  lemma ChoiceIs(s: Snapshot, q: Request, k: nat)
    requires s.Ok() && |q.bits| == |s.pieceMap| && k < |s.downloads|
    ensures var d := s.downloads[k];
      && d.info < |s.slabs| && s.BlocksIn(d.index) <= |s.slabs[d.info]| && d.index >= 0
      && Choice(s, q, d.index) ==
         if ExclusiveActive(s.slabs[d.info], s.BlocksIn(d.index), q.peer) then 0
         else if q.whole > 0 then 2
         else if d.speed != SpeedNone && d.speed != q.speed && q.options.speedAffinity then
           if Distance(d.speed, q.speed) == 1 then 1 else 2
         else 0
  {
    PartialOffer(s, q, k, 0);
    hide Snapshot.Ok, QueueOk, ExclusiveActive, View;
  }

  lemma SeenNone(s: Snapshot, q: Request, p: Picks, piece: nat)
    ensures From(p, p, piece) && Extends(p, p) && SeenUpTo(s, q, p, piece, 0)
  {
  }

  lemma LookedNone(s: Snapshot, q: Request, p: Picks, piece: nat)
    ensures Looked(s, q, p, p, piece, 0) && From(p, p, piece) && Extends(p, p) && AddsOne(p, p, piece)
  {
  }

  /** Looking at its first j blocks, a piece only added some of them, each once, and none on offer was missed. */
  ghost predicate Looked(s: Snapshot, q: Request, p0: Picks, p: Picks, piece: nat, j: nat) {
    Extends(p0, p) && From(p0, p, piece) && SeenUpTo(s, q, p, piece, j) && Adds(p0, p, piece, j)
  }

  lemma LookedAny(s: Snapshot, q: Request, p0: Picks, p: Picks, piece: nat, j: nat)
    requires Looked(s, q, p0, p, piece, j)
    ensures From(p0, p, piece) && Extends(p0, p) && AddsOne(p0, p, piece)
    ensures p0.left >= 0 ==> From(p0, p.(left := 0), piece) && Extends(p0, p.(left := 0)) && AddsOne(p0, p.(left := 0), piece)
  {
    hide Free, Adds, AddsOne;
    AddsAny(p0, p, piece, j);
  }

  /** Once no block is left to look at, the piece is settled. */
  lemma SettledAtEnd(s: Snapshot, q: Request, before: seq<PieceBlock>, wanted: nat, p0: Picks, p: Picks, piece: nat, n: nat)
    requires Picking(s, q, before, wanted, p)
    ensures Choice(s, q, piece) == 1 && |p.backup| >= p.left ==> Settled(s, q, p, piece)
    ensures Choice(s, q, piece) == 2 && |p.backup2| >= p.left ==> Settled(s, q, p, piece)
    ensures (forall j: nat :: Free(s, q, PieceBlock(piece, j)) ==> j < n) && Looked(s, q, p0, p, piece, n) ==> Settled(s, q, p, piece)
    ensures (forall j: nat :: !Free(s, q, PieceBlock(piece, j))) ==> Settled(s, q, p, piece)
  {
    hide Free, Choice, Picking, Settled;
    if || (Choice(s, q, piece) == 1 && |p.backup| >= p.left) || (Choice(s, q, piece) == 2 && |p.backup2| >= p.left)
       || ((forall j: nat :: Free(s, q, PieceBlock(piece, j)) ==> j < n) && Looked(s, q, p0, p, piece, n))
       || (forall j: nat :: !Free(s, q, PieceBlock(piece, j))) {
      SettledIs(s, q, before, wanted, p, piece);
    }
  }

  /** Looking at block j: it is no offer, or goes to one of the three lists. */
  lemma PutOne(s: Snapshot, q: Request, p0: Picks, p: Picks, piece: nat, j: nat)
    requires Looked(s, q, p0, p, piece, j)
    ensures var b := PieceBlock(piece, j);
      && (!Free(s, q, b) ==> Looked(s, q, p0, p, piece, j + 1))
      && Looked(s, q, p0, p.(backup := p.backup + [b]), piece, j + 1)
      && Looked(s, q, p0, p.(backup2 := p.backup2 + [b]), piece, j + 1)
      && Looked(s, q, p0, Take(p, b), piece, j + 1)
  {
    hide Free, Adds;
    AddsBlock(p0, p, piece, j);
  }

  /** Whatever was taken or put aside is of one piece. */
  ghost predicate From(p: Picks, p': Picks, piece: nat) {
    OnlyFrom(p.interesting, p'.interesting, piece) && OnlyFrom(p.backup, p'.backup, piece) && OnlyFrom(p.backup2, p'.backup2, piece)
  }

  ghost predicate SeenUpTo(s: Snapshot, q: Request, p: Picks, piece: nat, n: nat) {
    forall j: nat | j < n && Free(s, q, PieceBlock(piece, j)) ::
      PieceBlock(piece, j) in p.interesting || PieceBlock(piece, j) in p.backup || PieceBlock(piece, j) in p.backup2
  }

  /** Overshooting with whole pieces leaves nothing to find. */
  lemma LeftOver(s: Snapshot, q: Request, before: seq<PieceBlock>, wanted: nat, p: Picks)
    requires Picking(s, q, before, wanted, p) && p.left <= 0 <= wanted
    ensures Picking(s, q, before, wanted, p.(left := 0))
  {
    hide Free, Choice;
  }

  /** The run of pickable pieces around one of them, at most `whole` long. */
  method ExpandPiece(s: Snapshot, bits: seq<bool>, piece: nat, whole: nat) returns (start: int, end: int)
    requires piece < |s.pieceMap| == |bits|
    ensures (start, end) == RunOf(s, bits, piece, whole)
  {
    hide *;
    RunParts(s, bits, piece, whole);
    if whole == 0 { return piece, piece + 1; }
    start := piece - 1;
    var lower := if piece - whole < -1 then -1 else piece - whole;
    while start > lower && CanPick(s, start, bits)
      invariant lower <= start < piece
      invariant RunStart(s, bits, piece, lower + 1) == RunStart(s, bits, start + 1, lower + 1)
    {
      RunStartStep(s, bits, start + 1, lower + 1);
      start := start - 1;
    }
    RunStartStep(s, bits, start + 1, lower + 1);
    start := start + 1;
    end := piece + 1;
    var upper := if start + whole > |s.pieceMap| then |s.pieceMap| else start + whole;
    while end < upper && CanPick(s, end, bits)
      invariant piece < end <= upper
      invariant RunEnd(s, bits, piece + 1, upper) == RunEnd(s, bits, end, upper)
    {
      RunEndStep(s, bits, end, upper);
      end := end + 1;
    }
    RunEndStep(s, bits, end, upper);
  }

  /** A block of a piece nobody downloads is an offer. */
  lemma FreshOffer(s: Snapshot, q: Request, piece: nat, j: nat)
    requires s.Ok() && piece < |s.pieceMap| == |q.bits| && CanPick(s, piece, q.bits) && j < s.BlocksIn(piece)
    ensures Free(s, q, PieceBlock(piece, j)) && Choice(s, q, piece) == 0
  {
    QueueAtFind(s.downloads, s.slabs, s.pieceMap, s.blocksPerPiece, s.blocksInLast, piece);
  }

  /** Takes the first `num` blocks of a piece nobody downloads. */
  method TakePiece(s: Snapshot, q: Request, ghost before: seq<PieceBlock>, ghost wanted: nat, piece: nat, num: nat, p: Picks)
    returns (p': Picks)
    requires s.Ok() && piece < |s.pieceMap| == |q.bits| && CanPick(s, piece, q.bits) && num <= s.BlocksIn(piece)
    requires Picking(s, q, before, wanted, p) && Exact(before, wanted, p) && (q.whole == 0 ==> num <= p.left)
    ensures Picking(s, q, before, wanted, p') && Exact(before, wanted, p') && Extends(p, p') && p'.left == p.left - num
    ensures p'.backup == p.backup && p'.backup2 == p.backup2
    ensures From(p, p', piece) && p'.interesting == p.interesting + PieceBlocks(piece, num)
    ensures AllChoice(s, q, p'.interesting, |p.interesting|, 0)
    ensures num == s.BlocksIn(piece) ==> Covered(s, q, p'.interesting, piece)
  {
    hide Snapshot.Ok, QueueOk, Free, Picking, Choice, AllChoice;
    p' := p;
    NoneTaken(s, q, p);
    for j := 0 to num
      invariant AllChoice(s, q, p'.interesting, |p.interesting|, 0)
      invariant From(p, p', piece) && p'.interesting == p.interesting + PieceBlocks(piece, j)
      invariant Picking(s, q, before, wanted, p') && Exact(before, wanted, p') && Extends(p, p') && p'.left == p.left - j
      invariant p'.backup == p.backup && p'.backup2 == p.backup2
      invariant forall i | 0 <= i < j :: PieceBlock(piece, i) in p'.interesting
    {
      FreshOffer(s, q, piece, j);
      TakeOffer(s, q, before, wanted, p', PieceBlock(piece, j));
      MoreTaken(s, q, p, p', PieceBlock(piece, j));
      p' := Take(p', PieceBlock(piece, j));
    }
  }

  /** Takes every block of the pieces start..end-1. */
  method TakePieces(s: Snapshot, q: Request, ghost before: seq<PieceBlock>, ghost wanted: nat, start: nat, end: nat, p: Picks)
    returns (p': Picks)
    requires s.Ok() && start <= end <= |s.pieceMap| == |q.bits| && q.whole > 0
    requires forall k | start <= k < end :: CanPick(s, k, q.bits)
    requires Picking(s, q, before, wanted, p) && Exact(before, wanted, p)
    ensures Picking(s, q, before, wanted, p') && Exact(before, wanted, p') && Extends(p, p')
    ensures p'.backup == p.backup && p'.backup2 == p.backup2
    ensures forall k | start <= k < end :: Covered(s, q, p'.interesting, k)
    ensures start < end ==> p'.left < p.left
    ensures p'.interesting == p.interesting + RunBlocks(s, start, end)
  {
    hide Snapshot.Ok, QueueOk, Free, Picking, Covered, CanPick;
    p' := p;
    for k := start to end
      invariant Picking(s, q, before, wanted, p') && Exact(before, wanted, p') && Extends(p, p')
      invariant p'.backup == p.backup && p'.backup2 == p.backup2
      invariant forall i | start <= i < k :: Covered(s, q, p'.interesting, i)
      invariant start < k ==> p'.left < p.left
      invariant p'.interesting == p.interesting + RunBlocks(s, start, k)
    {
      var q' := p';
      PieceHasBlocks(s, k);
      p' := TakePiece(s, q, before, wanted, k, s.BlocksIn(k), p');
      forall i | start <= i < k
        ensures Covered(s, q, p'.interesting, i)
      {
        CoveredStays(s, q, q'.interesting, p'.interesting, i);
      }
    }
  }

  lemma PieceHasBlocks(s: Snapshot, piece: nat)
    requires s.Ok() && piece < |s.pieceMap|
    ensures s.BlocksIn(piece) > 0
  {
  }

  /** A free piece is downloading or can be picked; when it counts as considered. */
  lemma FreeKinds(s: Snapshot, q: Request, piece: nat)
    requires piece < |s.pieceMap| == |q.bits| && IsPieceFree(s, piece, q.bits)
    ensures CanPick(s, piece, q.bits) <==> !s.pieceMap[piece].downloading
    ensures PassedOver(s, q, piece) <==> s.pieceMap[piece].downloading && (s.pieceMap[piece].full || q.options.prioritizePartials)
    ensures s.pieceMap[piece].downloading ==> forall p: Picks ::
              s.pieceMap[piece].full || q.options.prioritizePartials || Settled(s, q, p, piece) ==> Considered(s, q, p, piece)
    ensures !s.pieceMap[piece].downloading ==> forall p: Picks ::
              Covered(s, q, p.interesting, piece) ==> Considered(s, q, p, piece)
  {
  }

  /** Takes blocks of one free piece. Unless it is already downloading or to be ignored, all of it is taken
      as long as blocks are still missing afterwards. */
  method AddBlocks(s: Snapshot, q: Request, ghost before: seq<PieceBlock>, ghost wanted: nat,
                   piece: nat, ignore: seq<nat>, p: Picks)
    returns (p': Picks)
    requires s.Ok() && piece < |s.pieceMap| == |q.bits| && IsPieceFree(s, piece, q.bits)
    requires Picking(s, q, before, wanted, p) && p.left > 0 && Exact(before, wanted, p)
    ensures Picking(s, q, before, wanted, p') && Extends(p, p') && (p'.left > 0 ==> Exact(before, wanted, p'))
    ensures !PutsAside(q) ==> p'.backup == p.backup && p'.backup2 == p.backup2
    ensures p'.left > 0 && piece !in ignore ==> Considered(s, q, p', piece)
    ensures Counted(s, q, p, p', [piece], ignore) && (p'.left > 0 ==> Repeated(s, q, p.interesting, p'.interesting, [piece], ignore))
  {
    hide *;
    NoneLeft(p, p);
    CountedNone(s, q, p, [piece], ignore);
    FreeKinds(s, q, piece);
    RunIs(s, q.bits, piece, q.whole);
    AddsNone(p, piece);
    AddsAny(p, p, piece, 0);
    p' := p;
    if piece in ignore { return; }
    if s.pieceMap[piece].downloading {
      CountedDownloading(s, q, p, p, piece, ignore);
      if s.pieceMap[piece].full { return; }
      if q.options.prioritizePartials { return; }
      var k := FindIn(s, piece);
      p' := AddBlocksDownloading(s, q, before, wanted, k, p');
      CountedDownloading(s, q, p, p', piece, ignore);
      return;
    }
    var num := s.BlocksIn(piece);
    if q.whole == 0 {
      if num > p.left {
        num := p.left;
      }
      p' := TakePiece(s, q, before, wanted, piece, num, p');
      RunOfOne(s, q, piece);
      CountedRun(s, q, p, p', piece, ignore, PieceBlocks(piece, num));
    } else {
      var start, end := ExpandPiece(s, q.bits, piece, q.whole);
      p' := TakePieces(s, q, before, wanted, start, end, p');
      CountedRun(s, q, p, p', piece, ignore, RunBlocks(s, start, end));
    }
    if p'.left <= 0 {
      LeftOver(s, q, before, wanted, p');
      NoneLeft(p, p');
      CountedLeft(s, q, p, p', [piece], ignore);
      p' := p'.(left := 0);
    }
  }

  lemma NoneLeft(p: Picks, p': Picks)
    ensures Extends(p, p)
    ensures Extends(p, p') && p.left >= 0 ==> Extends(p, p'.(left := 0))
  {
  }

  lemma FindSplits(s: Snapshot, piece: nat)
    requires s.Ok() && piece < |s.pieceMap| && s.pieceMap[piece].downloading
    ensures 0 <= Find(s.downloads, piece) < |s.downloads| && s.downloads[Find(s.downloads, piece)].index == piece
    ensures forall k | 0 <= k < |s.downloads| :: s.downloads[k].index < piece <==> k < Find(s.downloads, piece)
  {
    QueueAtFind(s.downloads, s.slabs, s.pieceMap, s.blocksPerPiece, s.blocksInLast, piece);
    hide Snapshot.Ok, QueueOk;
  }

  /** The position of a downloading piece in the sorted list. */
  method FindIn(s: Snapshot, piece: nat) returns (k: nat)
    requires s.Ok() && piece < |s.pieceMap| && s.pieceMap[piece].downloading
    ensures k < |s.downloads| && s.downloads[k].index == piece
  {
    hide *;
    FindSplits(s, piece);
    var lo, hi := 0, |s.downloads|;
    while lo < hi
      invariant 0 <= lo <= Find(s.downloads, piece) && Find(s.downloads, piece) <= hi <= |s.downloads|
    {
      var mid := (lo + hi) / 2;
      if s.downloads[mid].index < piece {
        lo := mid + 1;
      } else {
        hi := mid;
      }
    }
    k := lo;
  }

  /** The pieces of a list have all been considered. */
  ghost predicate ConsideredAll(s: Snapshot, q: Request, p: Picks, pieces: seq<nat>) {
    |q.bits| == |s.pieceMap| && forall k | 0 <= k < |pieces| :: Considered(s, q, p, pieces[k])
  }

  lemma ConsideredStays(s: Snapshot, q: Request, p: Picks, p': Picks, piece: nat)
    requires Considered(s, q, p, piece) && Extends(p, p')
    ensures Considered(s, q, p', piece)
  {
    hide Covered, Settled;
    CoveredStays(s, q, p.interesting, p'.interesting, piece);
    if Partial(s, q, piece) {
      SettledStays(s, q, p, p', piece);
    }
  }

  lemma ConsideredAllStays(s: Snapshot, q: Request, p: Picks, p': Picks, pieces: seq<nat>)
    requires ConsideredAll(s, q, p, pieces) && Extends(p, p')
    ensures ConsideredAll(s, q, p', pieces)
  {
    hide Considered, Extends;
    forall k | 0 <= k < |pieces|
      ensures Considered(s, q, p', pieces[k])
    {
      ConsideredStays(s, q, p, p', pieces[k]);
    }
  }

  /** A piece of which there is nothing more to take: nobody downloads it and all of it was taken, or all its free blocks
      were, unless blocks are put aside. */
  ghost predicate Exhausted(s: Snapshot, q: Request, blocks: seq<PieceBlock>, piece: nat) {
    && piece < |s.pieceMap| == |q.bits|
    && Covered(s, q, blocks, piece) && (Partial(s, q, piece) && Choice(s, q, piece) == 0 ==> Taken(s, q, blocks, piece))
  }

  ghost predicate ExhaustedAll(s: Snapshot, q: Request, blocks: seq<PieceBlock>, pieces: seq<nat>) {
    forall k | 0 <= k < |pieces| :: Exhausted(s, q, blocks, pieces[k])
  }

  /** As long as blocks are missing and none is put aside, what was considered is exhausted. */
  lemma ConsideredExhausted(s: Snapshot, q: Request, p: Picks, piece: nat)
    requires Considered(s, q, p, piece)
    ensures Exhausted(s, q, p.interesting, piece)
  {
    hide Free, Covered, Choice;
  }

  lemma ExhaustedAllIs(s: Snapshot, q: Request, p: Picks, pieces: seq<nat>)
    requires ConsideredAll(s, q, p, pieces) && p.left > 0 && (!PutsAside(q) ==> p.backup == p.backup2 == [])
    ensures ExhaustedAll(s, q, p.interesting, pieces)
  {
    hide Considered, Exhausted;
    forall k | 0 <= k < |pieces|
      ensures Exhausted(s, q, p.interesting, pieces[k])
    {
      ConsideredExhausted(s, q, p, pieces[k]);
    }
  }

  lemma ExhaustedStays(s: Snapshot, q: Request, a: seq<PieceBlock>, b: seq<PieceBlock>, piece: nat)
    requires Exhausted(s, q, a, piece) && a <= b
    ensures Exhausted(s, q, b, piece)
  {
    hide Free;
    PrefixIn(a, b);
  }

  lemma ExhaustedAllStays(s: Snapshot, q: Request, a: seq<PieceBlock>, b: seq<PieceBlock>, pieces: seq<nat>)
    requires ExhaustedAll(s, q, a, pieces) && a <= b
    ensures ExhaustedAll(s, q, b, pieces)
  {
    hide Exhausted;
    forall k | 0 <= k < |pieces|
      ensures Exhausted(s, q, b, pieces[k])
    {
      ExhaustedStays(s, q, a, b, pieces[k]);
    }
  }

  /** The piece at place k of the list touches x, and every piece before it is exhausted. */
  ghost predicate LedBy(s: Snapshot, q: Request, blocks: seq<PieceBlock>, pieces: seq<nat>, ignore: seq<nat>, k: nat, x: nat) {
    && |q.bits| == |s.pieceMap| && k < |pieces| && pieces[k] !in ignore && Touches(s, q, pieces[k], x)
    && ExhaustedAll(s, q, blocks, pieces[..k])
  }

  ghost predicate Led(s: Snapshot, q: Request, blocks: seq<PieceBlock>, pieces: seq<nat>, ignore: seq<nat>, x: nat) {
    exists k: nat :: LedBy(s, q, blocks, pieces, ignore, k, x)
  }

  /** Each block that was added is led to by a piece of the list before which every piece is exhausted. */
  ghost predicate InOrder(s: Snapshot, q: Request, p: Picks, p': Picks, pieces: seq<nat>, ignore: seq<nat>) {
    forall m | |p.interesting| <= m < |p'.interesting| ::
      Led(s, q, p'.interesting, pieces, ignore, p'.interesting[m].piece)
  }

  lemma LedStays(s: Snapshot, q: Request, a: seq<PieceBlock>, b: seq<PieceBlock>, pieces: seq<nat>, more: seq<nat>, ignore: seq<nat>,
                 k: nat, x: nat)
    requires LedBy(s, q, a, pieces, ignore, k, x) && a <= b && pieces <= more
    ensures LedBy(s, q, b, more, ignore, k, x)
  {
    hide Exhausted, Touches;
    ExhaustedAllStays(s, q, a, b, pieces[..k]);
    assert more[..k] == pieces[..k];
  }

  /** Adding on: another list after the first, once that is exhausted; or a longer one. */
  lemma OrderJoin(s: Snapshot, q: Request, p: Picks, p0: Picks, p': Picks, a: seq<nat>, b: seq<nat>, ignore: seq<nat>)
    requires Extends(p, p0) && Extends(p0, p') && InOrder(s, q, p, p0, a, ignore) && InOrder(s, q, p0, p', b, ignore)
    requires ExhaustedAll(s, q, p0.interesting, a)
    ensures InOrder(s, q, p, p', a + b, ignore)
  {
    ExhaustedAllStays(s, q, p0.interesting, p'.interesting, a);
    hide LedBy;
    forall m | |p.interesting| <= m < |p'.interesting|
      ensures Led(s, q, p'.interesting, a + b, ignore, p'.interesting[m].piece)
    {
      if m < |p0.interesting| {
        assert Led(s, q, p0.interesting, a, ignore, p0.interesting[m].piece);
        var k: nat :| LedBy(s, q, p0.interesting, a, ignore, k, p0.interesting[m].piece);
        LedStays(s, q, p0.interesting, p'.interesting, a, a + b, ignore, k, p'.interesting[m].piece);
      } else {
        assert Led(s, q, p'.interesting, b, ignore, p'.interesting[m].piece);
        var k: nat :| LedBy(s, q, p'.interesting, b, ignore, k, p'.interesting[m].piece);
        LedBehind(s, q, p'.interesting, a, b, ignore, k, p'.interesting[m].piece);
      }
    }
  }

  lemma LedBehind(s: Snapshot, q: Request, blocks: seq<PieceBlock>, a: seq<nat>, b: seq<nat>, ignore: seq<nat>, k: nat, x: nat)
    requires LedBy(s, q, blocks, b, ignore, k, x) && ExhaustedAll(s, q, blocks, a)
    ensures LedBy(s, q, blocks, a + b, ignore, |a| + k, x)
  {
    hide Exhausted, Touches;
    assert (a + b)[..|a| + k] == a + b[..k];
  }

  lemma OrderPrefix(s: Snapshot, q: Request, p: Picks, p': Picks, a: seq<nat>, b: seq<nat>, ignore: seq<nat>)
    requires InOrder(s, q, p, p', a, ignore) && a <= b
    ensures InOrder(s, q, p, p', b, ignore)
  {
    hide LedBy;
    forall m | |p.interesting| <= m < |p'.interesting|
      ensures Led(s, q, p'.interesting, b, ignore, p'.interesting[m].piece)
    {
      assert Led(s, q, p'.interesting, a, ignore, p'.interesting[m].piece);
      var k: nat :| LedBy(s, q, p'.interesting, a, ignore, k, p'.interesting[m].piece);
      LedStays(s, q, p'.interesting, p'.interesting, a, b, ignore, k, p'.interesting[m].piece);
    }
  }

  ghost predicate CoveredAll(s: Snapshot, q: Request, blocks: seq<PieceBlock>, pieces: seq<nat>) {
    |q.bits| == |s.pieceMap| && forall k | 0 <= k < |pieces| :: pieces[k] < |s.pieceMap| && Covered(s, q, blocks, pieces[k])
  }

  /** Considers pieces in the given order until enough blocks are found. */
  method AddInOrder(s: Snapshot, q: Request, ghost before: seq<PieceBlock>, ghost wanted: nat,
                    pieces: seq<nat>, ignore: seq<nat>, p: Picks)
    returns (p': Picks)
    requires s.Ok() && |s.pieceMap| == |q.bits| && AllPieces(pieces, |s.pieceMap|)
    requires Picking(s, q, before, wanted, p) && p.left > 0 && Exact(before, wanted, p)
    requires ConsideredAll(s, q, p, ignore) && (!PutsAside(q) ==> p.backup == p.backup2 == [])
    ensures Picking(s, q, before, wanted, p') && Extends(p, p') && (p'.left > 0 ==> Exact(before, wanted, p'))
    ensures InOrder(s, q, p, p', pieces, ignore) && (!PutsAside(q) ==> p'.backup == p'.backup2 == [])
    ensures p'.left > 0 ==> ConsideredAll(s, q, p', pieces)
    ensures Counted(s, q, p, p', pieces, ignore)
    ensures p'.left > 0 ==> Repeated(s, q, p.interesting, p'.interesting, pieces, ignore)
  {
    hide *;
    p' := p;
    OrderStart(s, q, p, pieces, ignore);
    CountedNone(s, q, p, pieces[..0], ignore);
    CountedNone(s, q, p, pieces, ignore);
    PieceRange(pieces, |s.pieceMap|);
    assert pieces[..0] == [];
    for i := 0 to |pieces|
      invariant Picking(s, q, before, wanted, p') && Extends(p, p') && p'.left > 0 && Exact(before, wanted, p')
      invariant ConsideredAll(s, q, p', pieces[..i]) && ConsideredAll(s, q, p', ignore)
      invariant InOrder(s, q, p, p', pieces, ignore) && (!PutsAside(q) ==> p'.backup == p'.backup2 == [])
      invariant Counted(s, q, p, p', pieces[..i], ignore) && Repeated(s, q, p.interesting, p'.interesting, pieces[..i], ignore)
    {
      ghost var p0 := p';
      var piece := pieces[i];
      NoneLeft(p', p');
      if IsPieceFree(s, piece, q.bits) {
        p' := AddBlocks(s, q, before, wanted, piece, ignore, p');
      }
      ExhaustedAllIs(s, q, p0, pieces[..i]);
      OrderStep(s, q, p, p0, p', pieces, ignore, i);
      CountedStep(s, q, p, p0, p', pieces, ignore, i);
      ExtendsTwice(p, p0, p');
      if p'.left <= 0 { return; }
      RepeatedStep(s, q, p, p0, p', pieces, ignore, i);
      ConsideredStep(s, q, p0, p', pieces, i, ignore);
    }
    assert pieces[..|pieces|] == pieces;
  }

  lemma PieceRange(pieces: seq<nat>, n: nat)
    requires AllPieces(pieces, n)
    ensures forall k | 0 <= k < |pieces| :: pieces[k] < n
  {
  }

  lemma OrderStart(s: Snapshot, q: Request, p: Picks, pieces: seq<nat>, ignore: seq<nat>)
    requires |q.bits| == |s.pieceMap|
    ensures ConsideredAll(s, q, p, pieces[..0]) && InOrder(s, q, p, p, pieces, ignore) && Extends(p, p)
  {
  }

  lemma OrderStep(s: Snapshot, q: Request, p: Picks, p0: Picks, p': Picks, pieces: seq<nat>, ignore: seq<nat>, i: nat)
    requires i < |pieces| && Extends(p, p0) && Extends(p0, p') && InOrder(s, q, p, p0, pieces, ignore) && |s.pieceMap| == |q.bits|
    requires ExhaustedAll(s, q, p0.interesting, pieces[..i])
    requires Counted(s, q, p0, p', [pieces[i]], ignore) || p' == p0
    ensures InOrder(s, q, p, p', pieces, ignore)
  {
    AddedTouched(s, q, p0, p', pieces[i], ignore);
    ExhaustedAllStays(s, q, p0.interesting, p'.interesting, pieces[..i]);
    hide Counted, ExhaustedAll, Touches;
    forall m | |p.interesting| <= m < |p'.interesting|
      ensures Led(s, q, p'.interesting, pieces, ignore, p'.interesting[m].piece)
    {
      if m < |p0.interesting| {
        assert Led(s, q, p0.interesting, pieces, ignore, p0.interesting[m].piece);
        var k: nat :| LedBy(s, q, p0.interesting, pieces, ignore, k, p0.interesting[m].piece);
        LedStays(s, q, p0.interesting, p'.interesting, pieces, pieces, ignore, k, p'.interesting[m].piece);
      } else {
        assert LedBy(s, q, p'.interesting, pieces, ignore, i, p'.interesting[m].piece);
      }
    }
  }

  lemma ConsideredStep(s: Snapshot, q: Request, p: Picks, p': Picks, pieces: seq<nat>, i: nat, ignore: seq<nat>)
    requires i < |pieces| && Extends(p, p') && pieces[i] < |s.pieceMap| == |q.bits|
    requires ConsideredAll(s, q, p, pieces[..i]) && ConsideredAll(s, q, p, ignore)
    requires !IsPieceFree(s, pieces[i], q.bits) || pieces[i] in ignore || Considered(s, q, p', pieces[i])
    ensures ConsideredAll(s, q, p', pieces[..i + 1]) && ConsideredAll(s, q, p', ignore)
  {
    hide AllPicked, Seen, Extends;
    ConsideredAllStays(s, q, p, p', pieces[..i]);
    ConsideredAllStays(s, q, p, p', ignore);
    if pieces[i] in ignore {
      var k :| 0 <= k < |ignore| && ignore[k] == pieces[i];
      assert Considered(s, q, p', ignore[k]);
    }
    var upTo := pieces[..i + 1];
    forall k | 0 <= k < |upTo|
      ensures Considered(s, q, p', upTo[k])
    {
      assert k < i ==> pieces[..i][k] == upTo[k];
    }
  }

  ghost predicate OfDownloads(s: Snapshot, blocks: seq<PieceBlock>, from: nat) {
    forall m | from <= m < |blocks| :: blocks[m].piece < |s.pieceMap| && s.pieceMap[blocks[m].piece].downloading
  }

  /** Every block a piece has to offer is among these. */
  ghost predicate Taken(s: Snapshot, q: Request, blocks: seq<PieceBlock>, piece: nat) {
    forall j: nat | Free(s, q, PieceBlock(piece, j)) :: PieceBlock(piece, j) in blocks
  }

  /** With everything put aside added, and still too little, what was seen is taken. */
  lemma SeenTaken(s: Snapshot, q: Request, p: Picks, blocks: seq<PieceBlock>, piece: nat)
    requires Seen(s, q, p, piece) && |p.backup| < p.left && |p.backup2| < p.left
    requires p.interesting + p.backup + p.backup2 <= blocks
    ensures Taken(s, q, blocks, piece)
  {
    hide Free;
    PrefixIn(p.interesting + p.backup + p.backup2, blocks);
  }

  lemma CoveredTaken(s: Snapshot, q: Request, blocks: seq<PieceBlock>, piece: nat)
    requires piece < |s.pieceMap| == |q.bits| && Covered(s, q, blocks, piece) && !s.pieceMap[piece].downloading
    ensures Taken(s, q, blocks, piece)
  {
  }

  lemma DownloadsMore(s: Snapshot, p: Picks, p': Picks, n: nat, piece: nat)
    requires From(p, p', piece) && piece < |s.pieceMap| && s.pieceMap[piece].downloading && n <= |p.interesting|
    requires OfDownloads(s, p.interesting, n) && OfDownloads(s, p.backup, 0) && OfDownloads(s, p.backup2, 0)
    ensures OfDownloads(s, p'.interesting, n) && OfDownloads(s, p'.backup, 0) && OfDownloads(s, p'.backup2, 0)
  {
  }

  lemma DownloadsAppended(s: Snapshot, a: seq<PieceBlock>, b: seq<PieceBlock>, n: nat)
    requires n <= |a| && OfDownloads(s, a, n) && OfDownloads(s, b, 0)
    ensures forall k: nat | k <= |b| :: OfDownloads(s, a + b[..k], n)
  {
  }

  /** The first k downloading pieces in list order. One marked full is passed over once enough is put aside of either kind. */
  ghost function WithPieces(s: Snapshot, q: Request, p: Picks, k: nat): Picks
    requires k <= |s.downloads| && forall i | 0 <= i < k :: 0 <= s.downloads[i].index < |s.pieceMap|
  {
    if k == 0 then p
    else
      var p', piece := WithPieces(s, q, p, k - 1), s.downloads[k - 1].index;
      if p'.left <= 0 || (s.pieceMap[piece].full && |p'.backup| >= p'.left && |p'.backup2| >= p'.left) then p'
      else WithPiece(s, q, piece, p')
  }

  /** What was put aside is added as far as it is needed, second choice before last. */
  ghost function WithAside(p: Picks): seq<PieceBlock> {
    if p.left <= 0 then p.interesting
    else if |p.backup| >= p.left then p.interesting + p.backup[..p.left]
    else
      var left := p.left - |p.backup|;
      p.interesting + p.backup + if |p.backup2| >= left then p.backup2[..left] else p.backup2
  }

  lemma {:induction false} WithPiecesDone(s: Snapshot, q: Request, p: Picks, k: nat, n: nat)
    requires k <= n <= |s.downloads| && (forall i | 0 <= i < n :: 0 <= s.downloads[i].index < |s.pieceMap|)
    requires WithPieces(s, q, p, k).left <= 0
    ensures WithPieces(s, q, p, n) == WithPieces(s, q, p, k)
  {
    hide WithPiece;
    if k < n { WithPiecesDone(s, q, p, k, n - 1); }
  }

  lemma WithPiecesNone(s: Snapshot, q: Request, p: Picks)
    ensures WithPieces(s, q, p, 0) == p
  {
  }

  lemma WithPiecesStep(s: Snapshot, q: Request, p: Picks, k: nat)
    requires k < |s.downloads| && (forall i | 0 <= i < |s.downloads| :: 0 <= s.downloads[i].index < |s.pieceMap|)
    ensures var p', piece := WithPieces(s, q, p, k), s.downloads[k].index;
      && (p'.left > 0 && !(s.pieceMap[piece].full && |p'.backup| >= p'.left && |p'.backup2| >= p'.left) ==>
            WithPieces(s, q, p, k + 1) == WithPiece(s, q, piece, p'))
      && (p'.left > 0 && s.pieceMap[piece].full && |p'.backup| >= p'.left && |p'.backup2| >= p'.left ==>
            WithPieces(s, q, p, k + 1) == p')
  {
    hide WithPiece;
  }

  lemma AsideNone(p: Picks)
    ensures p.left <= 0 ==> WithAside(p) == p.interesting
  {
  }

  /** Appending in two steps. */
  lemma AsideIs(p: Picks, n: nat, n2: nat)
    requires p.left > 0 && n <= |p.backup| && n2 <= |p.backup2| && n == (if |p.backup| < p.left then |p.backup| else p.left)
    requires n2 == if |p.backup| >= p.left then 0 else if |p.backup2| < p.left - n then |p.backup2| else p.left - n
    ensures WithAside(p) == p.interesting + p.backup[..n] + p.backup2[..n2]
  {
    assert p.backup[..|p.backup|] == p.backup && p.backup2[..|p.backup2|] == p.backup2;
  }

  /** A piece the peer does not have adds nothing. */
  lemma WithLacked(s: Snapshot, q: Request, piece: nat, p: Picks)
    requires |s.pieceMap| == |q.bits| && piece < |q.bits| && !q.bits[piece] && p.left > 0
    ensures WithPiece(s, q, piece, p) == p
  {
    WithPieceIs(s, q, piece, p);
    hide WithPiece;
  }

  /** Partial pieces first, in list order, then what was put aside. When that is not enough, all their blocks were taken. */
  method PickPartials(s: Snapshot, q: Request, ghost before: seq<PieceBlock>, ghost wanted: nat, p: Picks)
    returns (p': Picks)
    requires s.Ok() && |s.pieceMap| == |q.bits|
    requires Picking(s, q, before, wanted, p) && p.left > 0 && Exact(before, wanted, p) && p.backup == p.backup2 == []
    requires q.options.prioritizePartials
    ensures forall seeds: nat :: ByChoice(s, q, seeds, p'.interesting, |p.interesting|)
    ensures (forall i | 0 <= i < |s.downloads| :: 0 <= s.downloads[i].index < |s.pieceMap|)
    ensures p'.interesting == WithAside(WithPieces(s, q, p, |s.downloads|))
    ensures Picking(s, q, before, wanted, p') && Extends(p, p') && (p'.left > 0 ==> Exact(before, wanted, p'))
    ensures OfDownloads(s, p'.interesting, |p.interesting|)
    ensures p'.left > 0 ==> forall k: nat | k < |s.pieceMap| && s.pieceMap[k].downloading :: Taken(s, q, p'.interesting, k)
    ensures AddsDownloading(s, p, p') && (p'.left > 0 ==> p'.backup == p'.backup2 == [])
  {
    hide *;
    QueueSorted(s);
    AddsQueuedNone(p, s.downloads);
    p' := p;
    SeenNone(s, q, p, 0);
    NoneTaken(s, q, p);
    WithPiecesNone(s, q, p);
    DownloadsNone(s, p);
    for k := 0 to |s.downloads|
      invariant Picking(s, q, before, wanted, p') && Extends(p, p') && p'.left > 0 && Exact(before, wanted, p')
      invariant OfDownloads(s, p'.interesting, |p.interesting|) && OfDownloads(s, p'.backup, 0) && OfDownloads(s, p'.backup2, 0)
      invariant forall i: nat | i < k :: Seen(s, q, p', s.downloads[i].index)
      invariant forall i: nat | i < k && !s.pieceMap[s.downloads[i].index].full :: Settled(s, q, p', s.downloads[i].index)
      invariant AllChoice(s, q, p'.interesting, |p.interesting|, 0) && p' == WithPieces(s, q, p, k)
      invariant AddsQueued(p, p', s.downloads, k)
    {
      var index := s.downloads[k].index;
      ghost var p0 := p';
      SeenNone(s, q, p', index);
      PartialOffer(s, q, k, 0);
      WithPiecesStep(s, q, p, k);
      if !q.bits[index] { WithLacked(s, q, index, p'); }
      if q.bits[index] && !(s.pieceMap[index].full && |p'.backup| >= p'.left && |p'.backup2| >= p'.left) {
        p' := AddBlocksDownloading(s, q, before, wanted, k, p');
        LongerThan(p, p0);
        DownloadsMore(s, p0, p', |p.interesting|, index);
        ExtendsTwice(p, p0, p');
        AddsQueuedStep(p, p0, p', s.downloads, k);
        AllChoiceTwice(s, q, p, p0, p');
        if p'.left <= 0 {
          QueuedDownloading(s, p, p', k + 1);
          ByFirstChoice(s, q, p'.interesting, |p.interesting|);
          WithPiecesDone(s, q, p, k + 1, |s.downloads|);
          AsideNone(p');
          return;
        }
        SettledSeen(s, q, p', index);
      } else {
        NotHeld(s, q, p', k);
        AddsQueuedStep(p, p0, p', s.downloads, k);
      }
      forall i: nat | i < k + 1
        ensures Seen(s, q, p', s.downloads[i].index)
        ensures !s.pieceMap[s.downloads[i].index].full ==> Settled(s, q, p', s.downloads[i].index)
      {
        if i < k {
          SeenStays(s, q, p0, p', s.downloads[i].index);
          if !s.pieceMap[s.downloads[i].index].full { SettledStays(s, q, p0, p', s.downloads[i].index); }
        }
      }
    }
    QueuedDownloading(s, p, p', |s.downloads|);
    ghost var p1 := p';
    p' := AppendAll(s, q, before, wanted, p, p');
    DownloadingFewer(s, p, p1, p');
  }

  lemma QueueSorted(s: Snapshot)
    requires s.Ok()
    ensures Sorted(s.downloads)
    ensures forall k | 0 <= k < |s.downloads| :: 0 <= s.downloads[k].index < |s.pieceMap| && s.pieceMap[s.downloads[k].index].downloading
  {
    FlaggedRange(s.downloads, s.pieceMap);
  }

  lemma QueueAt(s: Snapshot, piece: nat) returns (i: nat)
    requires s.Ok() && piece < |s.pieceMap| && s.pieceMap[piece].downloading
    ensures i < |s.downloads| && s.downloads[i].index == piece
  {
    i := Find(s.downloads, piece);
  }

  lemma DownloadsNone(s: Snapshot, p: Picks)
    requires p.backup == p.backup2 == []
    ensures OfDownloads(s, p.interesting, |p.interesting|) && OfDownloads(s, p.backup, 0) && OfDownloads(s, p.backup2, 0)
  {
  }

  lemma LongerThan(p: Picks, p': Picks)
    requires Extends(p, p')
    ensures |p.interesting| <= |p'.interesting|
  {
  }

  lemma ExtendsTwice(p: Picks, p0: Picks, p': Picks)
    requires Extends(p, p0) && Extends(p0, p')
    ensures Extends(p, p')
  {
  }

  lemma ExtendsCleared(p: Picks, p0: Picks, p': Picks)
    requires Extends(p, p0) && Extends(p0, p') && p.backup == p.backup2 == []
    ensures Extends(p, p') && Extends(p, p'.(backup := [])) && Extends(p, p'.(backup2 := []))
  {
  }

  /** A piece the peer does not have has nothing to offer; a full one may be passed over when enough is put aside. */
  lemma NotHeld(s: Snapshot, q: Request, p: Picks, k: nat)
    requires s.Ok() && |s.pieceMap| == |q.bits| && k < |s.downloads|
    requires 0 <= s.downloads[k].index < |q.bits| && (!q.bits[s.downloads[k].index] || |p.backup| >= p.left)
    ensures Seen(s, q, p, s.downloads[k].index)
    ensures !q.bits[s.downloads[k].index] ==> Settled(s, q, p, s.downloads[k].index)
  {
  }

  /** The pieces of which a pick looks at every free block. A piece marked full may be passed over even when partial
      pieces come first. */
  predicate InReach(q: Request, piece: PiecePos, seeds: nat) {
    if q.options.prioritizePartials then piece.downloading && !piece.full else Findable(q, piece, seeds)
  }

  /** A free block is listed only behind every free block in reach that would be chosen before. */
  ghost predicate ByChoice(s: Snapshot, q: Request, seeds: nat, blocks: seq<PieceBlock>, from: nat) {
    forall m, b: PieceBlock | from <= m < |blocks| && Free(s, q, blocks[m]) && Free(s, q, b) && InReach(q, s.pieceMap[b.piece], seeds)
                              && Choice(s, q, b.piece) < Choice(s, q, blocks[m].piece) :: b in blocks[..m]
  }

  lemma ByFirstChoice(s: Snapshot, q: Request, blocks: seq<PieceBlock>, from: nat)
    requires AllChoice(s, q, blocks, from, 0)
    ensures forall seeds: nat :: ByChoice(s, q, seeds, blocks, from)
  {
    hide Choice, Free, InReach;
  }

  lemma AllChoiceTwice(s: Snapshot, q: Request, p: Picks, p0: Picks, p': Picks)
    requires Extends(p, p0) && Extends(p0, p') && AllChoice(s, q, p0.interesting, |p.interesting|, 0)
    requires AllChoice(s, q, p'.interesting, |p0.interesting|, 0)
    ensures AllChoice(s, q, p'.interesting, |p.interesting|, 0)
  {
    hide Choice;
  }

  /** What was put aside is added: as much as is needed of the second choice, and only then of the last. */
  lemma ChoicesAppended(s: Snapshot, q: Request, seeds: nat, c: Picks, from: nat, n: nat, n2: nat, blocks: seq<PieceBlock>)
    requires AllChoice(s, q, c.interesting, from, 0) && AllChoice(s, q, c.backup, 0, 1) && AllChoice(s, q, c.backup2, 0, 2)
    requires forall k: nat | k < |s.pieceMap| && InReach(q, s.pieceMap[k], seeds) :: Settled(s, q, c, k)
    requires n <= |c.backup| && n2 <= |c.backup2| && (n2 > 0 ==> n == |c.backup| < c.left) && from <= |c.interesting|
    requires blocks == c.interesting + c.backup[..n] + c.backup2[..n2]
    ensures ByChoice(s, q, seeds, blocks, from)
  {
    hide Choice, InReach;
    forall m, b: PieceBlock | from <= m < |blocks| && Free(s, q, blocks[m]) && Free(s, q, b) && InReach(q, s.pieceMap[b.piece], seeds)
                              && Choice(s, q, b.piece) < Choice(s, q, blocks[m].piece)
      ensures b in blocks[..m]
    {
      assert Settled(s, q, c, b.piece) && PieceBlock(b.piece, b.block) == b;
      if m < |c.interesting| + n {
        assert m >= |c.interesting| ==> blocks[m] == c.backup[m - |c.interesting|];
        assert m >= |c.interesting|;
        assert c.interesting <= blocks[..m];
        PrefixIn(c.interesting, blocks[..m]);
      } else {
        assert blocks[m] == c.backup2[m - |c.interesting| - n];
        assert c.interesting + c.backup <= blocks[..m];
        PrefixIn(c.interesting + c.backup, blocks[..m]);
      }
    }
  }

  /** Adds what was put aside to the result. */
  method AppendAll(s: Snapshot, q: Request, ghost before: seq<PieceBlock>, ghost wanted: nat, ghost p0: Picks, p: Picks)
    returns (p': Picks)
    requires s.Ok() && |s.pieceMap| == |q.bits| && p0.backup == p0.backup2 == []
    requires Picking(s, q, before, wanted, p) && p.left > 0 && Exact(before, wanted, p) && Extends(p0, p)
    requires OfDownloads(s, p.interesting, |p0.interesting|) && OfDownloads(s, p.backup, 0) && OfDownloads(s, p.backup2, 0)
    requires forall i: nat | i < |s.downloads| :: s.downloads[i].index >= 0 && Seen(s, q, p, s.downloads[i].index)
    requires q.options.prioritizePartials && AllChoice(s, q, p.interesting, |p0.interesting|, 0)
    requires forall i: nat | i < |s.downloads| ::
               s.downloads[i].index < |s.pieceMap| && (!s.pieceMap[s.downloads[i].index].full ==> Settled(s, q, p, s.downloads[i].index))
    ensures forall seeds: nat :: ByChoice(s, q, seeds, p'.interesting, |p0.interesting|)
    ensures p'.interesting == WithAside(p)
    ensures Picking(s, q, before, wanted, p') && Extends(p0, p') && (p'.left > 0 ==> Exact(before, wanted, p'))
    ensures OfDownloads(s, p'.interesting, |p0.interesting|)
    ensures p'.left > 0 ==> forall k: nat | k < |s.pieceMap| && s.pieceMap[k].downloading :: Taken(s, q, p'.interesting, k)
    ensures Bag(p') <= Bag(p) && (p'.left > 0 ==> p'.backup == p'.backup2 == [])
  {
    hide *;
    PartialsInReach(s, q, p);
    BackupOffers(s, q, before, wanted, p);
    LongerThan(p0, p);
    DownloadsAppended(s, p.interesting, p.backup, |p0.interesting|);
    ghost var n, n2: nat := *, 0;
    p', n := AppendBlocks(s, q, before, wanted, p, p.backup);
    BagMoved(p, p'.(backup := []));
    ExtendsCleared(p0, p, p');
    BackupOffers(s, q, before, wanted, p');
    p' := p'.(backup := []);
    if p'.left <= 0 {
      assert p.backup2[..0] == [];
      AsideIs(p, n, 0);
      forall seeds: nat
        ensures ByChoice(s, q, seeds, p'.interesting, |p0.interesting|)
      {
        ChoicesAppended(s, q, seeds, p, |p0.interesting|, n, 0, p'.interesting);
      }
      return;
    }
    ghost var p1 := p';
    BackupOffers(s, q, before, wanted, p');
    DownloadsAppended(s, p'.interesting, p'.backup2, |p0.interesting|);
    p', n2 := AppendBlocks(s, q, before, wanted, p', p'.backup2);
    AsideIs(p, |p.backup|, n2);
    forall seeds: nat
      ensures ByChoice(s, q, seeds, p'.interesting, |p0.interesting|)
    {
      ChoicesAppended(s, q, seeds, p, |p0.interesting|, |p.backup|, n2, p'.interesting);
    }
    BagMoved2(p1, p'.(backup2 := []));
    ExtendsCleared(p0, p1, p');
    BackupOffers(s, q, before, wanted, p');
    p' := p'.(backup2 := []);
    if p'.left > 0 {
      forall k: nat | k < |s.pieceMap| && s.pieceMap[k].downloading
        ensures Taken(s, q, p'.interesting, k)
      {
        var i := QueueAt(s, k);
        SeenTaken(s, q, p, p'.interesting, s.downloads[i].index);
      }
    }
  }

  lemma PartialsInReach(s: Snapshot, q: Request, p: Picks)
    requires s.Ok() && q.options.prioritizePartials
    requires forall i: nat | i < |s.downloads| ::
               0 <= s.downloads[i].index < |s.pieceMap|
               && (!s.pieceMap[s.downloads[i].index].full ==> Settled(s, q, p, s.downloads[i].index))
    ensures forall seeds: nat, k: nat | k < |s.pieceMap| && InReach(q, s.pieceMap[k], seeds) :: Settled(s, q, p, k)
  {
    hide Settled;
    forall k: nat | k < |s.pieceMap| && s.pieceMap[k].downloading && !s.pieceMap[k].full
      ensures Settled(s, q, p, k)
    {
      var i := QueueAt(s, k);
    }
  }

  lemma BackupOffers(s: Snapshot, q: Request, before: seq<PieceBlock>, wanted: nat, p: Picks)
    requires Picking(s, q, before, wanted, p)
    ensures AllFree(s, q, p.backup, 0) && AllFree(s, q, p.backup2, 0)
    ensures AllChoice(s, q, p.backup, 0, 1) && AllChoice(s, q, p.backup2, 0, 2) && Found(s, q, before, wanted, p)
    ensures Exact(before, wanted, p) ==> Exact(before, wanted, p.(backup := [])) && Exact(before, wanted, p.(backup2 := []))
    ensures Picking(s, q, before, wanted, p.(backup := [])) && Picking(s, q, before, wanted, p.(backup2 := []))
  {
    hide Free, Choice;
  }

  /** Moves blocks put aside to the result, as many as are still needed. */
  method AppendBlocks(s: Snapshot, q: Request, ghost before: seq<PieceBlock>, ghost wanted: nat, p: Picks, src: seq<PieceBlock>)
    returns (p': Picks, ghost n: nat)
    requires Found(s, q, before, wanted, p) && p.left > 0 && Exact(before, wanted, p) && AllFree(s, q, src, 0)
    ensures Found(s, q, before, wanted, p') && Extends(p, p') && Exact(before, wanted, p') && 0 <= p'.left <= p.left
    ensures q.options.prioritizePartials && Picking(s, q, before, wanted, p) ==> Picking(s, q, before, wanted, p')
    ensures n == (if |src| < p.left then |src| else p.left) && p'.interesting == p.interesting + src[..n] && p'.left == p.left - n
    ensures p'.left > 0 ==> |src| < p.left && p'.interesting == p.interesting + src
    ensures p'.backup == p.backup && p'.backup2 == p.backup2
  {
    hide Free, Choice;
    var toCopy := if |src| < p.left then |src| else p.left;
    n := toCopy;
    p' := p.(interesting := p.interesting + src[..toCopy], left := p.left - toCopy);
  }

  /** A bucket's place in the reverse traversal: groups of four from the top, each group from the bottom. */
  function ReverseOrder(i: nat): (prio: nat)
    ensures prio / PRIO_FACTOR == i / PRIO_FACTOR
  {
    (i / PRIO_FACTOR) * PRIO_FACTOR + PRIO_FACTOR - 1 - i % PRIO_FACTOR
  }

  /** The traversal visits every bucket below a multiple of four once. */
  lemma ReverseOrderInverts(i: nat)
    ensures ReverseOrder(ReverseOrder(i)) == i
    ensures forall m: nat | m % PRIO_FACTOR == 0 && i < m :: ReverseOrder(i) < m
  {
  }

  /** The pieces of one bucket. */
  function Bucket(pieces: seq<nat>, bounds: seq<int>, p: nat): seq<nat>
    requires B.Boundaries(bounds, |pieces|) && p < |bounds|
  {
    pieces[if p == 0 then 0 else bounds[p - 1]..bounds[p]]
  }

  lemma BucketMember(pieces: seq<nat>, bounds: seq<int>, p: nat, k: nat)
    requires B.Boundaries(bounds, |pieces|) && p < |bounds| && B.InBucket(bounds, p, k)
    ensures k < |pieces| && pieces[k] in Bucket(pieces, bounds, p)
  {
    var start := if p == 0 then 0 else bounds[p - 1];
    assert Bucket(pieces, bounds, p)[k - start] == pieces[k];
  }

  /** Every slot is in some bucket. */
  lemma {:induction false} SlotHasBucket(bounds: seq<int>, n: int, k: nat, p: nat) returns (q: nat)
    requires B.Boundaries(bounds, n) && p < |bounds| && k < bounds[p]
    ensures q <= p && B.InBucket(bounds, q, k)
    decreases p
  {
    if p == 0 || bounds[p - 1] <= k {
      q := p;
    } else {
      q := SlotHasBucket(bounds, n, k, p - 1);
    }
  }

  predicate AllPieces(pieces: seq<nat>, n: nat) {
    forall k | 0 <= k < |pieces| :: 0 <= pieces[k] < n
  }

  /** The pieces in the order of the reverse traversal, down to the bucket behind place i. */
  function Traversal(pieces: seq<nat>, bounds: seq<int>, i: int): (order: seq<nat>)
    requires B.Boundaries(bounds, |pieces|) && |bounds| % PRIO_FACTOR == 0 && -1 <= i < |bounds|
    decreases |bounds| - i
  {
    if i == |bounds| - 1 then []
    else
      ReverseOrderInverts(i + 1);
      Traversal(pieces, bounds, i + 1) + Bucket(pieces, bounds, ReverseOrder(i + 1))
  }

  /** Rarest first in reverse: the buckets in reverse order, each group of four forward. */
  method PickReverse(s: Snapshot, q: Request, ghost before: seq<PieceBlock>, ghost wanted: nat,
                     pieces: seq<nat>, bounds: seq<int>, suggested: seq<nat>, p: Picks)
    returns (p': Picks)
    requires s.Ok() && |s.pieceMap| == |q.bits| && AllPieces(pieces, |s.pieceMap|)
    requires B.Boundaries(bounds, |pieces|) && |bounds| % PRIO_FACTOR == 0 && |bounds| > 0
    requires Picking(s, q, before, wanted, p) && p.left > 0 && Exact(before, wanted, p)
    requires ConsideredAll(s, q, p, suggested) && (!PutsAside(q) ==> p.backup == p.backup2 == [])
    ensures Picking(s, q, before, wanted, p') && Extends(p, p') && (p'.left > 0 ==> Exact(before, wanted, p'))
    ensures InOrder(s, q, p, p', Traversal(pieces, bounds, -1), suggested) && (!PutsAside(q) ==> p'.backup == p'.backup2 == [])
    ensures p'.left > 0 ==> ConsideredAll(s, q, p', Traversal(pieces, bounds, -1))
    ensures Counted(s, q, p, p', Traversal(pieces, bounds, -1), suggested)
    ensures p'.left > 0 ==> Repeated(s, q, p.interesting, p'.interesting, Traversal(pieces, bounds, -1), suggested)
  {
    hide *;
    TraversalStart(pieces, bounds);
    OrderStart(s, q, p, [], suggested);
    CountedNone(s, q, p, [], suggested);
    p' := p;
    var i: int := |bounds| - 1;
    while i >= 0
      invariant -1 <= i < |bounds|
      invariant Picking(s, q, before, wanted, p') && Extends(p, p') && p'.left > 0 && Exact(before, wanted, p')
      invariant ConsideredAll(s, q, p', suggested) && ConsideredAll(s, q, p', Traversal(pieces, bounds, i))
      invariant InOrder(s, q, p, p', Traversal(pieces, bounds, i), suggested) && (!PutsAside(q) ==> p'.backup == p'.backup2 == [])
      invariant Counted(s, q, p, p', Traversal(pieces, bounds, i), suggested)
      invariant Repeated(s, q, p.interesting, p'.interesting, Traversal(pieces, bounds, i), suggested)
    {
      ghost var p0, order := p', Traversal(pieces, bounds, i);
      ReverseOrderInverts(i);
      var prio := ReverseOrder(i);
      TraversalNext(pieces, bounds, i);
      BucketRange(pieces, bounds, prio, |s.pieceMap|);
      p' := AddInOrder(s, q, before, wanted, Bucket(pieces, bounds, prio), suggested, p');
      ExhaustedAllIs(s, q, p0, order);
      OrderJoin(s, q, p, p0, p', order, Bucket(pieces, bounds, prio), suggested);
      CountedJoin(s, q, p, p0, p', order, Bucket(pieces, bounds, prio), suggested);
      ExtendsTwice(p, p0, p');
      i := i - 1;
      TraversalPrefix(pieces, bounds, i);
      if p'.left <= 0 {
        OrderPrefix(s, q, p, p', Traversal(pieces, bounds, i), Traversal(pieces, bounds, -1), suggested);
        CountedPrefix(s, q, p, p', Traversal(pieces, bounds, i), Traversal(pieces, bounds, -1), suggested);
        return;
      }
      ConsideredAllStays(s, q, p0, p', suggested);
      ConsideredAllStays(s, q, p0, p', order);
      ConsideredJoin(s, q, p', order, Bucket(pieces, bounds, prio));
    }
  }

  lemma ConsideredJoin(s: Snapshot, q: Request, p: Picks, a: seq<nat>, b: seq<nat>)
    requires ConsideredAll(s, q, p, a) && ConsideredAll(s, q, p, b)
    ensures ConsideredAll(s, q, p, a + b)
  {
    hide Considered;
  }

  lemma TraversalStart(pieces: seq<nat>, bounds: seq<int>)
    requires B.Boundaries(bounds, |pieces|) && |bounds| % PRIO_FACTOR == 0 && |bounds| > 0
    ensures Traversal(pieces, bounds, |bounds| - 1) == []
  {
  }

  lemma TraversalNext(pieces: seq<nat>, bounds: seq<int>, i: nat)
    requires B.Boundaries(bounds, |pieces|) && |bounds| % PRIO_FACTOR == 0 && i < |bounds|
    ensures ReverseOrder(i) < |bounds|
    ensures Traversal(pieces, bounds, i - 1) == Traversal(pieces, bounds, i) + Bucket(pieces, bounds, ReverseOrder(i))
  {
    ReverseOrderInverts(i);
  }

  lemma {:induction false} TraversalPrefix(pieces: seq<nat>, bounds: seq<int>, i: int)
    requires B.Boundaries(bounds, |pieces|) && |bounds| % PRIO_FACTOR == 0 && -1 <= i < |bounds|
    ensures Traversal(pieces, bounds, i) <= Traversal(pieces, bounds, -1)
    decreases i
  {
    hide Bucket, ReverseOrder;
    if i >= 0 {
      TraversalNext(pieces, bounds, i);
      TraversalPrefix(pieces, bounds, i - 1);
    }
  }

  /** A piece of the traversal is in the bucket of some place, and all buckets of higher places come before it. */
  lemma {:induction false} TraversalPlace(pieces: seq<nat>, bounds: seq<int>, i: int, k: nat) returns (j: nat)
    requires B.Boundaries(bounds, |pieces|) && |bounds| % PRIO_FACTOR == 0 && -1 <= i < |bounds| && k < |Traversal(pieces, bounds, i)|
    ensures i < j < |bounds| && ReverseOrder(j) < |bounds| && Traversal(pieces, bounds, i)[k] in Bucket(pieces, bounds, ReverseOrder(j))
    ensures |Traversal(pieces, bounds, j)| <= k && Traversal(pieces, bounds, j) <= Traversal(pieces, bounds, i)
    decreases |bounds| - i
  {
    hide Bucket, ReverseOrder;
    if i < |bounds| - 1 {
      TraversalNext(pieces, bounds, i + 1);
      var rest := Traversal(pieces, bounds, i + 1);
      if k < |rest| {
        j := TraversalPlace(pieces, bounds, i + 1, k);
      } else {
        j := i + 1;
        assert Traversal(pieces, bounds, i)[k] == Bucket(pieces, bounds, ReverseOrder(j))[k - |rest|];
      }
    } else {
      TraversalStart(pieces, bounds);
      assert false;
    }
  }

  /** And every bucket's pieces are in it. */
  lemma {:induction false} TraversalHas(pieces: seq<nat>, bounds: seq<int>, i: int, j: nat, x: nat)
    requires B.Boundaries(bounds, |pieces|) && |bounds| % PRIO_FACTOR == 0 && -1 <= i < j < |bounds|
    requires ReverseOrder(j) < |bounds| && x in Bucket(pieces, bounds, ReverseOrder(j))
    ensures x in Traversal(pieces, bounds, i)
    decreases |bounds| - i
  {
    hide Bucket, ReverseOrder;
    TraversalNext(pieces, bounds, i + 1);
    if i + 1 < j {
      TraversalHas(pieces, bounds, i + 1, j, x);
    }
  }

  lemma {:induction false} TraversalDistinct(pieces: seq<nat>, bounds: seq<int>, i: int)
    requires B.Boundaries(bounds, |pieces|) && |bounds| % PRIO_FACTOR == 0 && -1 <= i < |bounds| && Distinct(pieces)
    ensures Distinct(Traversal(pieces, bounds, i))
    decreases |bounds| - i
  {
    hide Bucket, ReverseOrder;
    if i < |bounds| - 1 {
      TraversalNext(pieces, bounds, i + 1);
      TraversalDistinct(pieces, bounds, i + 1);
      BucketDistinct(pieces, bounds, ReverseOrder(i + 1));
      var rest, bucket := Traversal(pieces, bounds, i + 1), Bucket(pieces, bounds, ReverseOrder(i + 1));
      forall a, b | 0 <= a < |rest| && 0 <= b < |bucket|
        ensures rest[a] != bucket[b]
      {
        var j := TraversalPlace(pieces, bounds, i + 1, a);
        if rest[a] == bucket[b] {
          BucketsApart(pieces, bounds, ReverseOrder(j), ReverseOrder(i + 1), rest[a]);
          ReverseOrderInverts(j);
          ReverseOrderInverts(i + 1);
        }
      }
    } else {
      TraversalStart(pieces, bounds);
    }
  }

  /** A piece is in one bucket only, and there once. */
  lemma BucketsApart(pieces: seq<nat>, bounds: seq<int>, p: nat, p': nat, x: int)
    requires B.Boundaries(bounds, |pieces|) && Distinct(pieces) && p < |bounds| && p' < |bounds|
    requires x in Bucket(pieces, bounds, p) && x in Bucket(pieces, bounds, p')
    ensures p == p'
  {
    var start, start' := if p == 0 then 0 else bounds[p - 1], if p' == 0 then 0 else bounds[p' - 1];
    var k :| 0 <= k < |Bucket(pieces, bounds, p)| && Bucket(pieces, bounds, p)[k] == x;
    var k' :| 0 <= k' < |Bucket(pieces, bounds, p')| && Bucket(pieces, bounds, p')[k'] == x;
    assert pieces[start + k] == pieces[start' + k'];
    B.BucketIsUnique(bounds, |pieces|, p, p', start + k);
  }

  lemma BucketRange(pieces: seq<nat>, bounds: seq<int>, p: nat, n: nat)
    requires B.Boundaries(bounds, |pieces|) && AllPieces(pieces, n) && p < |bounds|
    ensures AllPieces(Bucket(pieces, bounds, p), n)
  {
  }

  lemma BucketDistinct(pieces: seq<nat>, bounds: seq<int>, p: nat)
    requires B.Boundaries(bounds, |pieces|) && Distinct(pieces) && p < |bounds|
    ensures Distinct(Bucket(pieces, bounds, p))
  {
  }

  /** Every piece of the list is traversed. */
  lemma BucketsCover(s: Snapshot, q: Request, c: Picks, pieces: seq<nat>, bounds: seq<int>)
    requires |s.pieceMap| == |q.bits| && B.Boundaries(bounds, |pieces|) && |bounds| % PRIO_FACTOR == 0
    requires ConsideredAll(s, q, c, Traversal(pieces, bounds, -1))
    ensures ConsideredAll(s, q, c, pieces)
  {
    hide Considered, ReverseOrder, Traversal, Bucket;
    forall k | 0 <= k < |pieces|
      ensures Considered(s, q, c, pieces[k])
    {
      var p := SlotHasBucket(bounds, |pieces|, k, |bounds| - 1);
      BucketMember(pieces, bounds, p, k);
      ReverseOrderInverts(p);
      ReverseOrderInverts(ReverseOrder(p));
      TraversalHas(pieces, bounds, -1, ReverseOrder(p), pieces[k]);
      ConsideredMember(s, q, c, Traversal(pieces, bounds, -1), pieces[k]);
    }
  }

  /** Where a circular scan from `start` that stands at `piece` has been. */
  predicate Passed(start: nat, piece: nat, wrapped: bool, k: nat) {
    if wrapped then start <= k || k < piece else start <= k < piece
  }

  /** Steps left until a circular scan over n pieces is back at `start`. */
  function StepsLeft(start: nat, piece: nat, n: nat): int {
    if piece >= start then n - piece + start else start - piece
  }

  /** Each block of an open piece the scan has passed was added once at most, and no other. */
  ghost predicate AddsPassed(s: Snapshot, q: Request, ignore: seq<nat>, p: Picks, p': Picks, start: nat, piece: nat, wrapped: bool)
    requires |s.pieceMap| == |q.bits|
  {
    forall b: PieceBlock :: Bag(p')[b] <= Bag(p)[b] + if Passed(start, piece, wrapped, b.piece) && Open(s, q, ignore, b.piece) then 1 else 0
  }

  lemma PassedNone(s: Snapshot, q: Request, ignore: seq<nat>, p: Picks)
    requires |s.pieceMap| == |q.bits|
    ensures AddsFree(s, q, p, p)
    ensures forall start: nat :: AddsPassed(s, q, ignore, p, p, start, start, false)
    ensures forall p': Picks, start: nat, piece: nat, wrapped: bool ::
              AddsPassed(s, q, ignore, p, p', start, piece, wrapped) ==> AddsOpen(s, q, ignore, p, p')
  {
    hide Bag, Open;
  }

  lemma PassedMore(s: Snapshot, q: Request, ignore: seq<nat>, p: Picks, p': Picks, start: nat, piece: nat, wrapped: bool,
                   piece': nat, wrapped': bool)
    requires |s.pieceMap| == |q.bits|
    requires forall k: nat | k < |s.pieceMap| && Passed(start, piece, wrapped, k) :: Passed(start, piece', wrapped', k)
    ensures AddsPassed(s, q, ignore, p, p', start, piece, wrapped) ==> AddsPassed(s, q, ignore, p, p', start, piece', wrapped')
  {
    hide Bag, Passed;
  }

  lemma PassedStep(s: Snapshot, q: Request, ignore: seq<nat>, p: Picks, p0: Picks, p': Picks, start: nat, piece: nat, wrapped: bool)
    requires |s.pieceMap| == |q.bits| && piece < |s.pieceMap| && start < |s.pieceMap| && Apart(s, q)
    requires if wrapped then piece < start else start <= piece
    requires AddsPassed(s, q, ignore, p, p0, start, piece, wrapped) && Counted(s, q, p0, p', [piece], ignore)
    ensures AddsPassed(s, q, ignore, p, p', start, piece + 1, wrapped)
    ensures piece + 1 == |s.pieceMap| ==> AddsPassed(s, q, ignore, p, p', start, 0, true)
  {
    hide Bag, Open, Visits;
    forall b: PieceBlock
      ensures Bag(p')[b] <= Bag(p)[b] + if Passed(start, piece + 1, wrapped, b.piece) && Open(s, q, ignore, b.piece) then 1 else 0
    {
      VisitsOnce(s, q, [piece], ignore, b.piece);
    }
    if piece + 1 == |s.pieceMap| {
      OpenInRange(s, q, ignore);
      assert forall b: PieceBlock :: Open(s, q, ignore, b.piece) && Passed(start, piece + 1, wrapped, b.piece) ==> Passed(start, 0, true, b.piece);
    }
  }

  lemma OpenInRange(s: Snapshot, q: Request, ignore: seq<nat>)
    requires |s.pieceMap| == |q.bits|
    ensures forall x: nat | Open(s, q, ignore, x) :: x < |s.pieceMap|
  {
  }

  /** Neither order is asked for: pieces nobody downloads, from a random one round to it again. A run of whole
      pieces may leap over the starting point; then the scan goes on until enough is found. */
  method PickRandom(s: Snapshot, q: Request, ghost before: seq<PieceBlock>, ghost wanted: nat, suggested: seq<nat>, p: Picks)
    returns (p': Picks)
    requires s.Ok() && 0 < |s.pieceMap| == |q.bits|
    requires Picking(s, q, before, wanted, p) && p.left > 0 && Exact(before, wanted, p)
    requires CoveredAll(s, q, p.interesting, suggested)
    ensures Picking(s, q, before, wanted, p') && Extends(p, p') && Exact(before, wanted, p')
    ensures p'.left > 0 ==> forall k | 0 <= k < |s.pieceMap| :: Covered(s, q, p'.interesting, k)
    ensures AddsFree(s, q, p, p') && (Apart(s, q) ==> AddsOpen(s, q, suggested, p, p'))
  {
    hide Snapshot.Ok, QueueOk, Free, Picking, Covered, CoveredAll, AddsFree, AddsOpen, AddsPassed, Counted, RunOf, RunBlocks, Bag;
    PassedNone(s, q, suggested, p);
    var n := |s.pieceMap|;
    var start := P.Picker.AnyIndex(0, n - 1);
    var piece: nat := start;
    ghost var wrapped := false;
    p' := p;
    while p'.left > 0
      invariant Picking(s, q, before, wanted, p') && Extends(p, p') && Exact(before, wanted, p')
      invariant 0 <= piece < n && (wrapped || start <= piece)
      invariant AddsFree(s, q, p, p')
      invariant Apart(s, q) ==> (wrapped ==> piece < start) && AddsPassed(s, q, suggested, p, p', start, piece, wrapped)
      invariant p'.left > 0 ==> forall k | 0 <= k < n && Passed(start, piece, wrapped, k) :: Covered(s, q, p'.interesting, k)
      decreases p'.left
    {
      var done;
      ghost var from, wrapped0 := piece, wrapped;
      done, piece, wrapped := SkipPieces(s, q, p'.interesting, suggested, p.interesting, start, piece, wrapped);
      if Apart(s, q) {
        PassedMore(s, q, suggested, p, p', start, from, wrapped0, piece, wrapped);
      }
      if done { break; }
      var first, end := ExpandPiece(s, q.bits, piece, q.whole);
      ghost var p0 := p';
      if q.whole == 0 {
        var num := s.BlocksIn(piece);
        PieceHasBlocks(s, piece);
        if num > p'.left {
          num := p'.left;
        }
        p' := TakePiece(s, q, before, wanted, piece, num, p');
        CountedRun(s, q, p0, p', piece, suggested, PieceBlocks(piece, num));
      } else {
        RunIs(s, q.bits, piece, q.whole);
        p' := TakePieces(s, q, before, wanted, first, end, p');
        CountedRun(s, q, p0, p', piece, suggested, RunBlocks(s, first, end));
      }
      forall k | 0 <= k < n && p'.left > 0 && Passed(start, piece, wrapped, k)
        ensures Covered(s, q, p'.interesting, k)
      {
        CoveredStays(s, q, p0.interesting, p'.interesting, k);
      }
      CountedFree(s, q, p0, p', [piece], suggested);
      FreeTwice(s, q, p, p0, p');
      if Apart(s, q) {
        PassedStep(s, q, suggested, p, p0, p', start, piece, wrapped);
      }
      piece := end;
      if piece == n {
        piece, wrapped := 0, true;
      }
      if piece == start { break; }
    }
  }

  /** Moves on to the next piece that can be picked and was not suggested; done when back at the start. */
  method SkipPieces(s: Snapshot, q: Request, ghost blocks: seq<PieceBlock>, suggested: seq<nat>, ghost first: seq<PieceBlock>,
                    start: nat, from: nat, ghost wrapped0: bool)
    returns (done: bool, piece: nat, ghost wrapped: bool)
    requires start < |s.pieceMap| == |q.bits| && from < |s.pieceMap| && (wrapped0 || start <= from)
    requires CoveredAll(s, q, first, suggested) && first <= blocks
    requires forall k | 0 <= k < |s.pieceMap| && Passed(start, from, wrapped0, k) :: Covered(s, q, blocks, k)
    ensures piece < |s.pieceMap| && (wrapped || start <= piece)
    ensures forall k | 0 <= k < |s.pieceMap| && Passed(start, piece, wrapped, k) :: Covered(s, q, blocks, k)
    ensures (wrapped0 ==> from < start) ==> forall k: nat | k < |s.pieceMap| && Passed(start, from, wrapped0, k) :: Passed(start, piece, wrapped, k)
    ensures !done && (wrapped0 ==> from < start) ==> (wrapped ==> piece < start)
    ensures if done then wrapped && piece == start else CanPick(s, piece, q.bits) && piece !in suggested
  {
    hide AllPicked;
    done, piece, wrapped := false, from, wrapped0;
    while !CanPick(s, piece, q.bits) || piece in suggested
      invariant piece < |s.pieceMap| && (wrapped || start <= piece) && !done
      invariant (wrapped0 ==> from < start) ==> forall k: nat | k < |s.pieceMap| && Passed(start, from, wrapped0, k) :: Passed(start, piece, wrapped, k)
      invariant (wrapped0 ==> from < start) ==> (wrapped ==> piece < start)
      invariant forall k | 0 <= k < |s.pieceMap| && Passed(start, piece, wrapped, k) :: Covered(s, q, blocks, k)
      decreases StepsLeft(start, piece, |s.pieceMap|)
    {
      SuggestedCovered(s, q, first, blocks, suggested, piece);
      piece := piece + 1;
      if piece == |s.pieceMap| {
        piece, wrapped := 0, true;
      }
      if piece == start {
        done := true;
        break;
      }
    }
  }

  lemma SuggestedCovered(s: Snapshot, q: Request, a: seq<PieceBlock>, b: seq<PieceBlock>, suggested: seq<nat>, piece: nat)
    requires piece < |s.pieceMap| == |q.bits| && CoveredAll(s, q, a, suggested) && a <= b
    requires !CanPick(s, piece, q.bits) || piece in suggested
    ensures Covered(s, q, b, piece)
  {
    if piece in suggested {
      var k :| 0 <= k < |suggested| && suggested[k] == piece;
      assert Covered(s, q, a, suggested[k]);
      CoveredStays(s, q, a, b, piece);
    }
  }

  /** A block that another peer is already asked for, of a piece the peer has and we want. */
  ghost predicate Busy(s: Snapshot, q: Request, b: PieceBlock) {
    && b.piece < |s.pieceMap| == |q.bits| && q.bits[b.piece] && s.pieceMap[b.piece].Wanted()
    && b.block < s.BlocksIn(b.piece)
    && var v := View(s.downloads, s.slabs, b.piece);
       && v.PieceView? && s.BlocksIn(b.piece) <= |v.blocks|
       && v.blocks[b.block].state == StateRequested && v.blocks[b.block].peer != q.peer
  }

  lemma PartialBusy(s: Snapshot, q: Request, k: nat, j: nat)
    requires s.Ok() && k < |s.downloads| && |q.bits| == |s.pieceMap|
    ensures 0 <= s.downloads[k].index < |s.pieceMap| && s.downloads[k].info < |s.slabs|
    ensures s.BlocksIn(s.downloads[k].index) <= |s.slabs[s.downloads[k].info]|
    ensures j < s.BlocksIn(s.downloads[k].index) && q.bits[s.downloads[k].index]
              && !s.pieceMap[s.downloads[k].index].Filtered()
              && s.slabs[s.downloads[k].info][j].state == StateRequested && s.slabs[s.downloads[k].info][j].peer != q.peer
            <==> Busy(s, q, PieceBlock(s.downloads[k].index, j))
  {
    FlaggedRange(s.downloads, s.pieceMap);
    assert Sorted(s.downloads);
    ViewPresent(s.downloads, s.slabs, k);
    assert PieceOk(s.downloads[k], s.slabs[s.downloads[k].info], s.BlocksIn(s.downloads[k].index));
  }

  /** The blocks other peers are asked for, of the first downloading piece that has any. */
  method FindBusy(s: Snapshot, q: Request) returns (busy: seq<PieceBlock>)
    requires s.Ok() && |s.pieceMap| == |q.bits|
    ensures forall i | 0 <= i < |busy| :: Busy(s, q, busy[i])
    ensures FirstBusy(s, q, busy)
  {
    QueueSorted(s);
    hide Snapshot.Ok, QueueOk, Busy;
    busy := [];
    for k := 0 to |s.downloads|
      invariant busy == [] && forall i: nat, j: nat | i < k :: !Busy(s, q, PieceBlock(s.downloads[i].index, j))
    {
      var d := s.downloads[k];
      forall j: nat
        ensures Busy(s, q, PieceBlock(d.index, j)) ==>
                  j < s.BlocksIn(d.index) && q.bits[d.index] && s.pieceMap[d.index].piecePriority != 0
      {
        PartialBusy(s, q, k, j);
      }
      if q.bits[d.index] && s.pieceMap[d.index].piecePriority != 0 {
        PartialBusy(s, q, k, 0);
        for j := 0 to s.BlocksIn(d.index)
          invariant forall i | 0 <= i < |busy| :: Busy(s, q, busy[i]) && busy[i].piece == d.index
          invariant forall i: nat | i < j :: Busy(s, q, PieceBlock(d.index, i)) ==> PieceBlock(d.index, i) in busy
        {
          PartialBusy(s, q, k, j);
          var info := s.slabs[d.info][j];
          if info.state == StateRequested && info.peer != q.peer {
            busy := busy + [PieceBlock(d.index, j)];
          }
        }
        if busy != [] {
          BusyFrom(s, q, busy, k);
          return;
        }
      }
    }
    BusyFrom(s, q, busy, |s.downloads|);
  }

  /** All blocks of the first piece that others are asked for blocks of, or none if there is no such piece. */
  ghost predicate FirstBusy(s: Snapshot, q: Request, busy: seq<PieceBlock>) {
    && (busy == [] ==> forall b: PieceBlock :: !Busy(s, q, b))
    && forall i, b: PieceBlock | 0 <= i < |busy| && Busy(s, q, b) ::
         busy[i].piece < b.piece || (busy[i].piece == b.piece && b in busy)
  }

  lemma BusyFrom(s: Snapshot, q: Request, busy: seq<PieceBlock>, k: nat)
    requires s.Ok() && |s.pieceMap| == |q.bits| && k <= |s.downloads|
    requires forall i: nat, j: nat | i < k :: s.downloads[i].index >= 0 && !Busy(s, q, PieceBlock(s.downloads[i].index, j))
    requires busy == [] ==> k == |s.downloads|
    requires busy != [] ==> k < |s.downloads| && s.downloads[k].index >= 0
    requires forall i | 0 <= i < |busy| :: busy[i].piece == s.downloads[k].index
    requires busy != [] ==> forall j: nat | Busy(s, q, PieceBlock(s.downloads[k].index, j)) :: PieceBlock(s.downloads[k].index, j) in busy
    ensures FirstBusy(s, q, busy)
  {
    QueueSorted(s);
    forall b: PieceBlock | Busy(s, q, b)
      ensures busy != [] && (s.downloads[k].index < b.piece || (s.downloads[k].index == b.piece && b in busy))
    {
      BusyListed(s, q, b);
      hide Busy, Snapshot.Ok, QueueOk;
      var i := QueueAt(s, b.piece);
      assert PieceBlock(b.piece, b.block) == b;
      var x := PieceBlock(s.downloads[i].index, b.block);
      assert x == b;
    }
  }

  lemma BusyListed(s: Snapshot, q: Request, b: PieceBlock)
    requires s.Ok() && Busy(s, q, b)
    ensures b.piece < |s.pieceMap| && s.pieceMap[b.piece].downloading
  {
    QueueView(s.downloads, s.slabs, s.pieceMap, s.blocksPerPiece, s.blocksInLast, b.piece);
  }

  /** A piece marked full has no free block, or nobody is at work on it: its flag may lag behind. */
  lemma FullIdle(s: Snapshot, q: Request, k: nat)
    requires s.Ok() && s.FlagsOk() && k < |s.downloads|
    requires 0 <= s.downloads[k].index < |s.pieceMap| && s.pieceMap[s.downloads[k].index].full
    ensures Idle(s, q, s.downloads[k])
  {
    var d := s.downloads[k];
    var v, num := View(s.downloads, s.slabs, d.index), s.BlocksIn(d.index);
    FlaggedRange(s.downloads, s.pieceMap);
    assert Sorted(s.downloads);
    ViewPresent(s.downloads, s.slabs, k);
    assert PieceOk(d, s.slabs[d.info], num);
    FullAt(s.downloads, s.slabs, s.pieceMap, s.blocksPerPiece, s.blocksInLast, d.index);
    QueueView(s.downloads, s.slabs, s.pieceMap, s.blocksPerPiece, s.blocksInLast, d.index);
    hide QueueOk, Snapshot.Ok, PieceOk, Layout, View, ViewOk, FullNow, CountState, Find;
    forall j | 0 <= j < num
      ensures FullNow(v, num) ==> v.blocks[j].state != StateNone
      ensures CountState(v.blocks, StateRequested) == 0 ==> v.blocks[j].state != StateRequested
    {
      if v.blocks[j].state == StateNone { FreeNotFull(v, num, j); }
      CountSome(v.blocks, j);
    }
  }

  lemma ForBackups(s: Snapshot, q: Request, before: seq<PieceBlock>, wanted: nat, p: Picks)
    requires Picking(s, q, before, wanted, p) && p.left > 0
    ensures Picking(s, q, [], p.left, Picks([], p.backup, p.backup2, p.left)) && Exact([], p.left, Picks([], p.backup, p.backup2, p.left))
  {
    hide Free;
  }

  /** Blocks of full pieces that were passed over the first time; only what is put aside is kept. Nothing is: the pass
      is only for pieces on which others are at work, and those are full indeed. */
  method PickBackups(s: Snapshot, q: Request, ghost before: seq<PieceBlock>, ghost wanted: nat, p: Picks)
    returns (p': Picks)
    requires s.Ok() && s.FlagsOk() && |s.pieceMap| == |q.bits|
    requires Picking(s, q, before, wanted, p) && p.left > 0 && Exact(before, wanted, p)
    ensures p' == p
  {
    hide *;
    QueueSorted(s);
    ForBackups(s, q, before, wanted, p);
    p' := p;
    for k := 0 to |s.downloads|
      invariant p' == p
    {
      var index := s.downloads[k].index;
      if q.bits[index] && s.pieceMap[index].full {
        FullIdle(s, q, k);
        var temp := AddBlocksDownloading(s, q, [], p.left, k, Picks([], p'.backup, p'.backup2, p.left));
        p' := p'.(backup := temp.backup, backup2 := temp.backup2);
      }
    }
  }

  /** What is read of a picker. */
  ghost function SnapshotOf(p: P.Picker): Snapshot
    reads p
  {
    Snapshot(p.pieceMap, p.downloads, p.slabs, p.blocksPerPiece, p.blocksInLast)
  }

  /** The request after the adjustments made on entry: many partial pieces make them preferred. */
  function Effective(q: Request, numDownloads: nat, numPeers: nat): (r: Request)
    ensures r.options.prioritizePartials <==> q.options.prioritizePartials || 2 * numDownloads > 3 * numPeers
    ensures r.whole == q.whole || (r.whole == 0 && q.options.ignoreWholePieces)
    ensures q.options.ignoreWholePieces ==> r.whole == 0
    ensures r.bits == q.bits && r.peer == q.peer && r.speed == q.speed
    ensures r.options == q.options.(prioritizePartials := r.options.prioritizePartials)
  {
    q.(whole := if q.options.ignoreWholePieces then 0 else q.whole,
       options := q.options.(prioritizePartials := q.options.prioritizePartials || numDownloads > numPeers * 3 / 2))
  }

  /** The result of a pick: only offers were added, save that the last block may be a busy one
      when the peer is not on parole. */
  ghost predicate Picked(s: Snapshot, q: Request, before: seq<PieceBlock>, result: seq<PieceBlock>) {
    && before <= result
    && (|| Offers(s, q, result, |before|)
        || (&& |before| < |result| && !q.options.onParole
            && Offers(s, q, result[..|result| - 1], |before|) && Busy(s, q, result[|result| - 1])))
  }

  /** Whether the options ask for an order at all, and where a piece stands in it. */
  predicate Ordered(q: Request) {
    q.options.sequential || q.options.rarestFirst
  }

  function Rank(q: Request, piece: nat, pos: PiecePos, seeds: nat): int {
    if q.options.sequential then
      if q.options.reverse then -(piece as int) else piece
    else if q.options.rarestFirst && pos.Priority(seeds) >= 0 then
      if q.options.reverse then -(ReverseOrder(pos.Priority(seeds)) as int) else pos.Priority(seeds)
    else 0
  }

  /** Whether a pick with these options can find a piece at all: the rarest-first list holds only pieces
      somebody is known to have. */
  predicate Reachable(q: Request, piece: PiecePos, seeds: nat) {
    q.options.rarestFirst && !q.options.sequential ==> piece.Priority(seeds) >= 0
  }

  /** Considering piece a adds blocks of x, and whatever comes before a in the order is exhausted. */
  ghost predicate Leads(s: Snapshot, q: Request, seeds: nat, blocks: seq<PieceBlock>, a: nat, x: nat)
    requires |s.pieceMap| == |q.bits|
  {
    && a < |s.pieceMap| && Touches(s, q, a, x)
    && forall b: nat | b < |s.pieceMap| && Reachable(q, s.pieceMap[b], seeds)
                       && Rank(q, b, s.pieceMap[b], seeds) < Rank(q, a, s.pieceMap[a], seeds) :: Exhausted(s, q, blocks, b)
  }

  /** A block of a piece that is looked at in its turn comes from a suggested piece, or from one before which every piece
      ahead in the order is exhausted. Without runs of whole pieces that is its own piece. */
  ghost predicate BestFirst(s: Snapshot, q: Request, seeds: nat, suggested: seq<nat>, blocks: seq<PieceBlock>, from: nat)
    requires |s.pieceMap| == |q.bits|
  {
    forall m | from <= m < |blocks| && blocks[m].piece < |s.pieceMap| && !Shut(s, q, blocks[m].piece) ::
      || (exists k: nat :: k < |suggested| && Touches(s, q, suggested[k], blocks[m].piece))
      || (exists a: nat :: Leads(s, q, seeds, blocks, a, blocks[m].piece))
  }

  /** A piece comes before another in the order asked for, by what their records say. */
  predicate ComesBefore(s: Snapshot, q: Request, a: nat, b: nat)
    requires a < |s.pieceMap| && b < |s.pieceMap|
  {
    if q.options.sequential then
      if q.options.reverse then a > b else a < b
    else
      && q.options.rarestFirst
      && if q.options.reverse then Rarer(s.pieceMap[b], s.pieceMap[a]) else Rarer(s.pieceMap[a], s.pieceMap[b])
  }

  /** No block of a piece is listed, save of a suggested one, while a piece that somebody has and that comes before it has a
      block on offer that is neither listed nor to be put aside. */
  ghost predicate InTurn(s: Snapshot, q: Request, seeds: nat, suggested: seq<nat>, blocks: seq<PieceBlock>, from: nat)
    requires |s.pieceMap| == |q.bits|
  {
    forall m, b: PieceBlock |
      && from <= m < |blocks| && blocks[m].piece < |s.pieceMap| && !Shut(s, q, blocks[m].piece) && blocks[m].piece !in suggested
      && Free(s, q, b) && !Shut(s, q, b.piece) && Choice(s, q, b.piece) == 0 && s.pieceMap[b.piece].peerCount + seeds > 0
      && s.pieceMap[blocks[m].piece].peerCount + seeds > 0
      && ComesBefore(s, q, b.piece, blocks[m].piece) :: b in blocks
  }

  lemma RankIs(s: Snapshot, q: Request, a: nat, b: nat, seeds: nat)
    requires a < |s.pieceMap| == |q.bits| && b < |s.pieceMap| && ComesBefore(s, q, a, b)
    requires IsPieceFree(s, a, q.bits) && s.pieceMap[a].peerCount + seeds > 0
    requires IsPieceFree(s, b, q.bits) && s.pieceMap[b].peerCount + seeds > 0
    ensures Reachable(q, s.pieceMap[a], seeds) && Rank(q, a, s.pieceMap[a], seeds) < Rank(q, b, s.pieceMap[b], seeds)
  {
    if !q.options.sequential {
      var x, y := s.pieceMap[a], s.pieceMap[b];
      ListedWhen(x, seeds);
      ListedWhen(y, seeds);
      if q.options.reverse {
        RarerFirst(y, x, seeds);
        hide PiecePos.Priority;
        ReverseHigher(x.Priority(seeds), y.Priority(seeds));
      } else {
        RarerFirst(x, y, seeds);
        hide PiecePos.Priority;
      }
    }
  }

  lemma ReverseHigher(a: nat, b: nat)
    requires a / PRIO_FACTOR > b / PRIO_FACTOR
    ensures ReverseOrder(a) > ReverseOrder(b)
  {
  }

  /** Without runs of whole pieces the order is kept piece by piece. */
  lemma BestInTurn(s: Snapshot, q: Request, seeds: nat, suggested: seq<nat>, blocks: seq<PieceBlock>, from: nat)
    requires |s.pieceMap| == |q.bits| && BestFirst(s, q, seeds, suggested, blocks, from)
    ensures Apart(s, q) ==> InTurn(s, q, seeds, suggested, blocks, from)
  {
    hide QueueOk, Snapshot.Ok, Choice, Rank, ComesBefore, Apart;
    forall m, b: PieceBlock |
      && Apart(s, q) && from <= m < |blocks| && blocks[m].piece < |s.pieceMap| && !Shut(s, q, blocks[m].piece) && blocks[m].piece !in suggested
      && Free(s, q, b) && !Shut(s, q, b.piece) && Choice(s, q, b.piece) == 0 && s.pieceMap[b.piece].peerCount + seeds > 0
      && s.pieceMap[blocks[m].piece].peerCount + seeds > 0
      && ComesBefore(s, q, b.piece, blocks[m].piece)
      ensures b in blocks
    {
      var x := blocks[m].piece;
      OneTouch(s, q, suggested, x);
      RankIs(s, q, b.piece, x, seeds);
      var a: nat :| Leads(s, q, seeds, blocks, a, x);
      OwnPiece(s, q, seeds, blocks, a, x);
      assert Exhausted(s, q, blocks, b.piece);
      ExhaustedTaken(s, q, blocks, b);
    }
  }

  lemma OneTouch(s: Snapshot, q: Request, suggested: seq<nat>, x: nat)
    requires |s.pieceMap| == |q.bits| && Apart(s, q) && x !in suggested
    ensures !exists k: nat :: k < |suggested| && Touches(s, q, suggested[k], x)
  {
  }

  lemma ExhaustedTaken(s: Snapshot, q: Request, blocks: seq<PieceBlock>, b: PieceBlock)
    requires |s.pieceMap| == |q.bits| && Free(s, q, b) && !Shut(s, q, b.piece) && Exhausted(s, q, blocks, b.piece)
    requires Choice(s, q, b.piece) == 0
    ensures b in blocks
  {
    hide Choice;
    assert PieceBlock(b.piece, b.block) == b;
    if !s.pieceMap[b.piece].downloading { CoveredTaken(s, q, blocks, b.piece); }
  }

  /** Without runs of whole pieces a piece is led to by itself only. */
  lemma OwnPiece(s: Snapshot, q: Request, seeds: nat, blocks: seq<PieceBlock>, a: nat, x: nat)
    requires |s.pieceMap| == |q.bits| && Apart(s, q) && Leads(s, q, seeds, blocks, a, x)
    ensures a == x
  {
  }

  lemma LeadsStay(s: Snapshot, q: Request, seeds: nat, a: seq<PieceBlock>, b: seq<PieceBlock>, piece: nat, x: nat)
    requires |s.pieceMap| == |q.bits| && Leads(s, q, seeds, a, piece, x) && a <= b
    ensures Leads(s, q, seeds, b, piece, x)
  {
    hide Exhausted, Touches, Rank, Reachable;
    forall y: nat | y < |s.pieceMap| && Reachable(q, s.pieceMap[y], seeds)
                    && Rank(q, y, s.pieceMap[y], seeds) < Rank(q, piece, s.pieceMap[piece], seeds)
      ensures Exhausted(s, q, b, y)
    {
      ExhaustedStays(s, q, a, b, y);
    }
  }

  /** The pieces between the cursors, ascending or descending. */
  function Ascent(cursor: int, reverseCursor: int, reverse: bool): (order: seq<nat>)
    requires 0 <= cursor
    ensures |order| == if cursor < reverseCursor then reverseCursor - cursor else 0
    ensures forall i | 0 <= i < |order| :: order[i] == if reverse then reverseCursor - 1 - i else cursor + i
  {
    var n := if cursor < reverseCursor then reverseCursor - cursor else 0;
    seq(n, i requires 0 <= i < n => if reverse then reverseCursor - 1 - i else cursor + i)
  }

  lemma AscentRange(cursor: int, reverseCursor: int, reverse: bool, pieceMap: seq<PiecePos>)
    requires C.CursorsOk(cursor, reverseCursor, pieceMap)
    ensures 0 <= cursor && AllPieces(Ascent(cursor, reverseCursor, reverse), |pieceMap|) && Distinct(Ascent(cursor, reverseCursor, reverse))
  {
  }

  /** Ascending or descending through the range the cursors delimit: nothing wanted lies outside it. */
  method PickSequential(s: Snapshot, q: Request, ghost before: seq<PieceBlock>, ghost wanted: nat,
                        cursor: int, reverseCursor: int, suggested: seq<nat>, p: Picks, ghost seeds: nat)
    returns (p': Picks)
    requires s.Ok() && |s.pieceMap| == |q.bits| && C.CursorsOk(cursor, reverseCursor, s.pieceMap) && q.options.sequential
    requires Picking(s, q, before, wanted, p) && p.left > 0 && Exact(before, wanted, p)
    requires ConsideredAll(s, q, p, suggested) && (!PutsAside(q) ==> p.backup == p.backup2 == [])
    ensures Picking(s, q, before, wanted, p') && Extends(p, p') && (p'.left > 0 ==> Exact(before, wanted, p'))
    ensures BestFirst(s, q, seeds, suggested, p'.interesting, |p.interesting|) && (!PutsAside(q) ==> p'.backup == p'.backup2 == [])
    ensures p'.left > 0 ==> forall k: nat | k < |s.pieceMap| :: Considered(s, q, p', k)
    ensures 0 <= cursor && Counted(s, q, p, p', Ascent(cursor, reverseCursor, q.options.reverse), suggested)
    ensures p'.left > 0 ==> Repeated(s, q, p.interesting, p'.interesting, Ascent(cursor, reverseCursor, q.options.reverse), suggested)
    ensures AddsFree(s, q, p, p') && (Apart(s, q) ==> AddsOpen(s, q, suggested, p, p'))
  {
    hide *;
    AscentRange(cursor, reverseCursor, q.options.reverse, s.pieceMap);
    var order := Ascent(cursor, reverseCursor, q.options.reverse);
    p' := AddInOrder(s, q, before, wanted, order, suggested, p);
    CountedFree(s, q, p, p', order, suggested);
    SequentialOrder(s, q, p, p', cursor, reverseCursor, order, suggested, seeds);
    if p'.left > 0 {
      SequentialCovers(s, q, p', cursor, reverseCursor);
    }
  }

  lemma SequentialCovers(s: Snapshot, q: Request, p: Picks, cursor: int, reverseCursor: int)
    requires |s.pieceMap| == |q.bits| && C.CursorsOk(cursor, reverseCursor, s.pieceMap)
    requires ConsideredAll(s, q, p, Ascent(cursor, reverseCursor, q.options.reverse))
    ensures forall k: nat | k < |s.pieceMap| :: Considered(s, q, p, k)
  {
    hide Considered, Ascent;
    var order := Ascent(cursor, reverseCursor, q.options.reverse);
    forall k: nat | k < |s.pieceMap|
      ensures Considered(s, q, p, k)
    {
      if cursor <= k < reverseCursor {
        var i := if q.options.reverse then reverseCursor - 1 - k else k - cursor;
        assert order[i] == k;
        ConsideredAt(s, q, p, order, i);
      } else {
        Unwanted(s, q, p, k);
      }
    }
  }

  lemma ConsideredAt(s: Snapshot, q: Request, p: Picks, pieces: seq<nat>, i: nat)
    requires ConsideredAll(s, q, p, pieces) && i < |pieces|
    ensures Considered(s, q, p, pieces[i])
  {
  }

  lemma Unwanted(s: Snapshot, q: Request, p: Picks, piece: nat)
    requires piece < |s.pieceMap| == |q.bits| && !s.pieceMap[piece].Wanted()
    ensures Considered(s, q, p, piece)
  {
  }

  lemma SequentialOrder(s: Snapshot, q: Request, p: Picks, p': Picks, cursor: int, reverseCursor: int, order: seq<nat>,
                        suggested: seq<nat>, seeds: nat)
    requires |s.pieceMap| == |q.bits| && C.CursorsOk(cursor, reverseCursor, s.pieceMap) && q.options.sequential
    requires |order| == if cursor < reverseCursor then reverseCursor - cursor else 0
    requires forall i | 0 <= i < |order| :: order[i] == if q.options.reverse then reverseCursor - 1 - i else cursor + i
    requires InOrder(s, q, p, p', order, suggested)
    ensures BestFirst(s, q, seeds, suggested, p'.interesting, |p.interesting|)
  {
    hide Exhausted, Touches, Shut;
    forall m | |p.interesting| <= m < |p'.interesting|
      ensures exists a: nat :: Leads(s, q, seeds, p'.interesting, a, p'.interesting[m].piece)
    {
      assert Led(s, q, p'.interesting, order, suggested, p'.interesting[m].piece);
      var k: nat :| LedBy(s, q, p'.interesting, order, suggested, k, p'.interesting[m].piece);
      forall b: nat | b < |s.pieceMap| && Rank(q, b, s.pieceMap[b], seeds) < Rank(q, order[k], s.pieceMap[order[k]], seeds)
        ensures Exhausted(s, q, p'.interesting, b)
      {
        if cursor <= b < reverseCursor {
          var i := if q.options.reverse then reverseCursor - 1 - b else b - cursor;
          assert order[i] == b && order[..k][i] == b;
        } else {
          UnwantedExhausted(s, q, p'.interesting, b);
        }
      }
      assert Leads(s, q, seeds, p'.interesting, order[k], p'.interesting[m].piece);
    }
  }

  lemma UnwantedExhausted(s: Snapshot, q: Request, blocks: seq<PieceBlock>, piece: nat)
    requires piece < |s.pieceMap| == |q.bits| && !s.pieceMap[piece].Wanted()
    ensures Exhausted(s, q, blocks, piece)
  {
  }

  /** Empty buckets at the end change nothing. */
  lemma CleanExtended(pieces: seq<int>, bounds: seq<int>, pieceMap: seq<PiecePos>, prios: seq<int>, more: nat, back: int)
    requires B.Clean(pieces, bounds, pieceMap, prios) && back == |pieces|
    ensures B.Clean(pieces, bounds + seq(more, _ => back), pieceMap, prios)
  {
    var bounds' := bounds + seq(more, _ => back);
    forall k | 0 <= k < |pieces|
      ensures B.InBucket(bounds', prios[pieces[k]], k)
    {
      assert B.Pointed(pieces, pieceMap, k) && B.InBucket(bounds, prios[pieces[k]], k);
    }
  }

  lemma CleanRange(pieces: seq<int>, bounds: seq<int>, pieceMap: seq<PiecePos>, prios: seq<int>)
    requires B.Clean(pieces, bounds, pieceMap, prios)
    ensures AllPieces(pieces, |pieceMap|) && B.Boundaries(bounds, |pieces|) && Distinct(pieces)
    ensures forall i | 0 <= i < |pieceMap| && prios[i] >= 0 :: i in pieces
  {
    forall k | 0 <= k < |pieces|
      ensures 0 <= pieces[k] < |pieceMap|
    {
      assert B.Pointed(pieces, pieceMap, k);
    }
    forall i | 0 <= i < |pieceMap| && prios[i] >= 0
      ensures i in pieces
    {
      assert B.Listed(pieces, pieceMap, i);
    }
  }

  /** Makes the number of buckets a multiple of four. */
  method RoundUpBuckets(p: P.Picker)
    requires p.Valid() && !p.dirty
    modifies p`bounds
    ensures p.Valid() && |p.bounds| % PRIO_FACTOR == 0
    ensures old(p.bounds) <= p.bounds && |p.bounds| < |old(p.bounds)| + PRIO_FACTOR
    ensures forall i | |old(p.bounds)| <= i < |p.bounds| :: |old(p.bounds)| > 0 && p.bounds[i] == old(p.bounds)[|old(p.bounds)| - 1]
  {
    hide QueueBut, C.CursorsOk, B.InBucket, B.Pointed, B.Listed;
    var target := (|p.bounds| + PRIO_FACTOR - 1) / PRIO_FACTOR * PRIO_FACTOR;
    var back := p.bounds[|p.bounds| - 1];
    CleanExtended(p.pieces, p.bounds, p.pieceMap, Priorities(p.pieceMap, p.seeds), target - |p.bounds|, back);
    p.bounds := p.bounds + seq(target - |p.bounds|, _ => back);
  }

  /** The pieces of a list, none of which is negative. */
  function Naturals(pieces: seq<int>): (r: seq<nat>)
    ensures |r| == |pieces| && forall k | 0 <= k < |r| :: r[k] == if pieces[k] < 0 then 0 else pieces[k]
  {
    seq(|pieces|, k requires 0 <= k < |pieces| => if pieces[k] < 0 then 0 else pieces[k])
  }

  /** The order in which the list of wanted pieces is gone through. */
  ghost function ListOrder(pieces: seq<int>, bounds: seq<int>, reverse: bool): seq<nat> {
    if reverse && B.Boundaries(bounds, |pieces|) && |bounds| % PRIO_FACTOR == 0 then Traversal(Naturals(pieces), bounds, -1)
    else Naturals(pieces)
  }

  /** The list order, rebuilt first when it is out of date; or bucket by bucket in reverse. */
  method PickRarest(p: P.Picker, s: Snapshot, q: Request, ghost before: seq<PieceBlock>, ghost wanted: nat,
                    suggested: seq<nat>, c: Picks)
    returns (c': Picks)
    requires p.Valid() && s.Ok() && s.pieceMap == p.pieceMap && |p.pieceMap| == |q.bits|
    requires Picking(s, q, before, wanted, c) && c.left > 0 && Exact(before, wanted, c)
    requires ConsideredAll(s, q, c, suggested) && (!PutsAside(q) ==> c.backup == c.backup2 == [])
    requires q.options.rarestFirst && !q.options.sequential
    modifies p`pieces, p`bounds, p`pieceMap, p`dirty
    ensures p.Valid() && !p.dirty && MovedOnly(old(p.pieceMap), p.pieceMap)
    ensures Picking(s, q, before, wanted, c') && Extends(c, c') && (c'.left > 0 ==> Exact(before, wanted, c'))
    ensures BestFirst(s, q, p.seeds, suggested, c'.interesting, |c.interesting|) && (!PutsAside(q) ==> c'.backup == c'.backup2 == [])
    ensures Apart(s, q) ==> InTurn(s, q, p.seeds, suggested, c'.interesting, |c.interesting|)
    ensures c'.left > 0 ==> forall k: nat | k < |s.pieceMap| && s.pieceMap[k].Priority(p.seeds) >= 0 :: Considered(s, q, c', k)
    ensures AddsFree(s, q, c, c') && (Apart(s, q) ==> AddsOpen(s, q, suggested, c, c'))
    ensures Counted(s, q, c, c', ListOrder(p.pieces, p.bounds, q.options.reverse), suggested)
    ensures c'.left > 0 ==> Repeated(s, q, c.interesting, c'.interesting, ListOrder(p.pieces, p.bounds, q.options.reverse), suggested)
    ensures forall k: nat | k < |s.pieceMap| && s.pieceMap[k].Priority(p.seeds) >= 0 ::
              k in ListOrder(p.pieces, p.bounds, q.options.reverse)
  {
    hide B.Clean, QueueBut, C.CursorsOk, C.Total, MovedOnly, Free, Picking, Covered, Considered, ConsideredAll, CoveredAll, Snapshot.Ok,
         InTurn, Apart, Choice,
         InOrder, BestFirst, Extends, AddsFree, AddsOpen, Counted, Repeated, Distinct, AllPieces, Reachable, Traversal, ListOrder, Naturals;
    MovedNone(p.pieceMap);
    if p.dirty {
      p.UpdatePieces();
      P.MovedKind(old(p.pieceMap), p.pieceMap, p.cursor, p.reverseCursor);
      P.QueueMoved(p.downloads, p.slabs, old(p.pieceMap), p.pieceMap, p.blocksPerPiece, p.blocksInLast);
    }
    ghost var prios := Priorities(p.pieceMap, p.seeds);
    MovingKeepsPriorities(old(p.pieceMap), p.pieceMap, p.seeds);
    if q.options.reverse {
      RoundUpBuckets(p);
      CleanRange(p.pieces, p.bounds, p.pieceMap, prios);
      ListOrderIs(p.pieces, p.bounds, |s.pieceMap|, true);
      c' := PickReverse(s, q, before, wanted, p.pieces, p.bounds, suggested, c);
      ReverseIsBestFirst(s, q, c, c', p.pieces, p.bounds, p.pieceMap, prios, suggested, p.seeds);
      TraversalDistinct(p.pieces, p.bounds, -1);
      CountedFree(s, q, c, c', Traversal(p.pieces, p.bounds, -1), suggested);
      if c'.left > 0 { BucketsCover(s, q, c', p.pieces, p.bounds); }
    } else {
      CleanRange(p.pieces, p.bounds, p.pieceMap, prios);
      ListOrderIs(p.pieces, p.bounds, |s.pieceMap|, false);
      c' := AddInOrder(s, q, before, wanted, p.pieces, suggested, c);
      CountedFree(s, q, c, c', p.pieces, suggested);
      ListIsBestFirst(s, q, c, c', p.pieces, p.bounds, p.pieceMap, prios, suggested, p.seeds);
    }
    BestInTurn(s, q, p.seeds, suggested, c'.interesting, |c.interesting|);
    forall k: nat | k < |s.pieceMap| && s.pieceMap[k].Priority(p.seeds) >= 0
      ensures k in ListOrder(p.pieces, p.bounds, q.options.reverse)
      ensures c'.left > 0 ==> Considered(s, q, c', k)
    {
      assert prios[k] >= 0;
      if c'.left > 0 { ConsideredMember(s, q, c', p.pieces, k); }
    }
  }

  lemma ListOrderIs(pieces: seq<nat>, bounds: seq<int>, n: nat, reverse: bool)
    requires AllPieces(pieces, n) && B.Boundaries(bounds, |pieces|) && (reverse ==> |bounds| % PRIO_FACTOR == 0)
    ensures ListOrder(pieces, bounds, reverse) == if reverse then Traversal(pieces, bounds, -1) else pieces
    ensures forall k | k in pieces :: k in ListOrder(pieces, bounds, reverse)
  {
    assert Naturals(pieces) == pieces;
    if reverse {
      forall k | k in pieces
        ensures k in Traversal(pieces, bounds, -1)
      {
        var i :| 0 <= i < |pieces| && pieces[i] == k;
        var p := SlotHasBucket(bounds, |pieces|, i, |bounds| - 1);
        BucketMember(pieces, bounds, p, i);
        ReverseOrderInverts(p);
        ReverseOrderInverts(ReverseOrder(p));
        TraversalHas(pieces, bounds, -1, ReverseOrder(p), k);
      }
    }
  }

  lemma ConsideredMember(s: Snapshot, q: Request, p: Picks, pieces: seq<nat>, k: nat)
    requires ConsideredAll(s, q, p, pieces) && k in pieces
    ensures Considered(s, q, p, k)
  {
    var i :| 0 <= i < |pieces| && pieces[i] == k;
    assert Considered(s, q, p, pieces[i]);
  }

  /** In a clean list a piece of a lower bucket stands in a lower slot. */
  lemma SlotsAscend(pieces: seq<nat>, bounds: seq<int>, pieceMap: seq<PiecePos>, prios: seq<int>, k: nat, b: nat)
    requires B.Clean(pieces, bounds, pieceMap, prios) && k < |pieces| && b < |prios|
    ensures |pieceMap| == |prios| && 0 <= pieces[k] < |prios| && 0 <= prios[pieces[k]] < |bounds|
    ensures 0 <= prios[b] < prios[pieces[k]] ==> 0 <= pieceMap[b].index < k && pieces[pieceMap[b].index] == b
  {
    assert B.Pointed(pieces, pieceMap, k) && B.InBucket(bounds, prios[pieces[k]], k);
    if 0 <= prios[b] < prios[pieces[k]] {
      assert B.Listed(pieces, pieceMap, b);
      assert B.Pointed(pieces, pieceMap, pieceMap[b].index) && B.InBucket(bounds, prios[b], pieceMap[b].index);
    }
  }

  lemma ListIsBestFirst(s: Snapshot, q: Request, p: Picks, p': Picks, pieces: seq<nat>, bounds: seq<int>,
                        pieceMap: seq<PiecePos>, prios: seq<int>, suggested: seq<nat>, seeds: nat)
    requires B.Clean(pieces, bounds, pieceMap, prios) && prios == Priorities(s.pieceMap, seeds)
    requires |s.pieceMap| == |q.bits| && AllPieces(pieces, |s.pieceMap|)
    requires q.options.rarestFirst && !q.options.sequential && !q.options.reverse
    requires InOrder(s, q, p, p', pieces, suggested)
    ensures BestFirst(s, q, seeds, suggested, p'.interesting, |p.interesting|)
  {
    hide B.Clean, Exhausted, Touches, PiecePos.Priority;
    forall m | |p.interesting| <= m < |p'.interesting|
      ensures exists a: nat :: Leads(s, q, seeds, p'.interesting, a, p'.interesting[m].piece)
    {
      assert Led(s, q, p'.interesting, pieces, suggested, p'.interesting[m].piece);
      var k: nat :| LedBy(s, q, p'.interesting, pieces, suggested, k, p'.interesting[m].piece);
      forall b: nat | b < |s.pieceMap| && Reachable(q, s.pieceMap[b], seeds)
                      && Rank(q, b, s.pieceMap[b], seeds) < Rank(q, pieces[k], s.pieceMap[pieces[k]], seeds)
        ensures Exhausted(s, q, p'.interesting, b)
      {
        SlotsAscend(pieces, bounds, pieceMap, prios, k, b);
        assert pieces[..k][pieceMap[b].index] == b;
      }
      assert Leads(s, q, seeds, p'.interesting, pieces[k], p'.interesting[m].piece);
    }
  }

  lemma ReverseIsBestFirst(s: Snapshot, q: Request, p: Picks, p': Picks, pieces: seq<nat>, bounds: seq<int>,
                           pieceMap: seq<PiecePos>, prios: seq<int>, suggested: seq<nat>, seeds: nat)
    requires B.Clean(pieces, bounds, pieceMap, prios) && prios == Priorities(s.pieceMap, seeds)
    requires |s.pieceMap| == |q.bits| && AllPieces(pieces, |s.pieceMap|) && B.Boundaries(bounds, |pieces|)
    requires q.options.rarestFirst && !q.options.sequential && q.options.reverse && |bounds| % PRIO_FACTOR == 0
    requires InOrder(s, q, p, p', Traversal(pieces, bounds, -1), suggested)
    ensures BestFirst(s, q, seeds, suggested, p'.interesting, |p.interesting|)
  {
    hide B.Clean, Exhausted, Touches, PiecePos.Priority, ReverseOrder, Traversal, Bucket;
    var order := Traversal(pieces, bounds, -1);
    forall m | |p.interesting| <= m < |p'.interesting|
      ensures exists a: nat :: Leads(s, q, seeds, p'.interesting, a, p'.interesting[m].piece)
    {
      assert Led(s, q, p'.interesting, order, suggested, p'.interesting[m].piece);
      var k: nat :| LedBy(s, q, p'.interesting, order, suggested, k, p'.interesting[m].piece);
      var j := TraversalPlace(pieces, bounds, -1, k);
      BucketHolds(pieces, bounds, pieceMap, prios, ReverseOrder(j), order[k]);
      ReverseOrderInverts(j);
      forall b: nat | b < |s.pieceMap| && Reachable(q, s.pieceMap[b], seeds)
                      && Rank(q, b, s.pieceMap[b], seeds) < Rank(q, order[k], s.pieceMap[order[k]], seeds)
        ensures Exhausted(s, q, p'.interesting, b)
      {
        TraversedBefore(pieces, bounds, pieceMap, prios, j, b);
        var i :| 0 <= i < |Traversal(pieces, bounds, j)| && Traversal(pieces, bounds, j)[i] == b;
        assert order[..k][i] == b;
      }
      assert Leads(s, q, seeds, p'.interesting, order[k], p'.interesting[m].piece);
    }
  }

  /** A piece of a bucket that comes before place j is traversed before it. */
  lemma TraversedBefore(pieces: seq<nat>, bounds: seq<int>, pieceMap: seq<PiecePos>, prios: seq<int>, j: nat, b: nat)
    requires B.Clean(pieces, bounds, pieceMap, prios) && B.Boundaries(bounds, |pieces|) && |bounds| % PRIO_FACTOR == 0 && j < |bounds|
    requires b < |prios| && prios[b] >= 0 && ReverseOrder(prios[b]) > j
    ensures b in Traversal(pieces, bounds, j)
  {
    hide B.Clean, ReverseOrder, Traversal, Bucket;
    BucketHas(pieces, bounds, pieceMap, prios, b);
    ReverseOrderInverts(prios[b]);
    TraversalHas(pieces, bounds, j, ReverseOrder(prios[b]), b);
  }

  /** A bucket holds pieces of its priority, and every piece with a priority is in its bucket. */
  lemma BucketHolds(pieces: seq<nat>, bounds: seq<int>, pieceMap: seq<PiecePos>, prios: seq<int>, p: nat, a: nat)
    requires B.Clean(pieces, bounds, pieceMap, prios) && B.Boundaries(bounds, |pieces|) && p < |bounds|
    requires a in Bucket(pieces, bounds, p)
    ensures a < |prios| && prios[a] == p
  {
    var start := if p == 0 then 0 else bounds[p - 1];
    var n :| 0 <= n < |Bucket(pieces, bounds, p)| && Bucket(pieces, bounds, p)[n] == a;
    var k := start + n;
    assert B.Pointed(pieces, pieceMap, k) && B.InBucket(bounds, prios[pieces[k]], k);
    B.BucketIsUnique(bounds, |pieces|, p, prios[a], k);
  }

  lemma BucketHas(pieces: seq<nat>, bounds: seq<int>, pieceMap: seq<PiecePos>, prios: seq<int>, b: nat)
    requires B.Clean(pieces, bounds, pieceMap, prios) && B.Boundaries(bounds, |pieces|)
    requires b < |prios| && prios[b] >= 0
    ensures prios[b] < |bounds| && b in Bucket(pieces, bounds, prios[b])
  {
    assert B.Listed(pieces, pieceMap, b);
    var k := pieceMap[b].index;
    assert B.Pointed(pieces, pieceMap, k) && B.InBucket(bounds, prios[pieces[k]], k);
    BucketMember(pieces, bounds, prios[b], k);
  }

  /** The order in which pieces are considered after the suggested ones, as far as it is no matter of chance. */
  ghost function OrderOf(p: P.Picker, q: Request): seq<nat>
    reads p
  {
    if q.options.sequential then if p.cursor >= 0 then Ascent(p.cursor, p.reverseCursor, q.options.reverse) else []
    else if q.options.rarestFirst then ListOrder(p.pieces, p.bounds, q.options.reverse)
    else []
  }

  lemma OrderNone(p: P.Picker, q: Request)
    ensures !Ordered(q) ==> OrderOf(p, q) == []
  {
  }

  /** Blocks of pieces nobody downloads, in the order the options ask for. */
  method PickFresh(p: P.Picker, s: Snapshot, q: Request, ghost before: seq<PieceBlock>, ghost wanted: nat,
                   suggested: seq<nat>, c: Picks)
    returns (c': Picks)
    requires p.Valid() && s == SnapshotOf(p) && 0 < |p.pieceMap| == |q.bits|
    requires Picking(s, q, before, wanted, c) && c.left > 0 && Exact(before, wanted, c)
    requires ConsideredAll(s, q, c, suggested) && (!PutsAside(q) ==> c.backup == c.backup2 == [])
    modifies p`pieces, p`bounds, p`pieceMap, p`dirty
    ensures p.Valid() && MovedOnly(old(p.pieceMap), p.pieceMap)
    ensures Picking(s, q, before, wanted, c') && Extends(c, c') && (c'.left > 0 ==> Exact(before, wanted, c'))
    ensures BestFirst(s, q, p.seeds, suggested, c'.interesting, |c.interesting|)
    ensures Ordered(q) && !PutsAside(q) ==> c'.backup == c'.backup2 == []
    ensures c'.left > 0 ==> forall k: nat | k < |s.pieceMap| && Reachable(q, s.pieceMap[k], p.seeds) ::
              if Ordered(q) then Considered(s, q, c', k) else Covered(s, q, c'.interesting, k)
    ensures AddsFree(s, q, c, c') && (Apart(s, q) ==> AddsOpen(s, q, suggested, c, c'))
    ensures p.cursor >= 0
    ensures Ordered(q) ==> Counted(s, q, c, c', OrderOf(p, q), suggested)
    ensures c'.left > 0 && OrderOf(p, q) != [] ==> Repeated(s, q, c.interesting, c'.interesting, OrderOf(p, q), suggested)
    ensures q.options.rarestFirst && !q.options.sequential ==>
              forall k: nat | k < |s.pieceMap| && s.pieceMap[k].Priority(p.seeds) >= 0 :: k in OrderOf(p, q)
  {
    MovedNone(p.pieceMap);
    OrderNone(p, q);
    AscentRange(p.cursor, p.reverseCursor, false, p.pieceMap);
    hide B.Clean, QueueBut, C.CursorsOk, C.Total, MovedOnly, Free, Picking, Covered, CoveredAll, Considered, ConsideredAll, Extends,
         BestFirst, AddsFree, AddsOpen, Counted, Repeated, Distinct, AllPieces, PutsAside, Ascent, ListOrder;
    if q.options.sequential {
      c' := PickSequential(s, q, before, wanted, p.cursor, p.reverseCursor, suggested, c, p.seeds);
    } else if q.options.rarestFirst {
      c' := PickRarest(p, s, q, before, wanted, suggested, c);
    } else {
      ConsideredCovered(s, q, c, suggested);
      c' := PickRandom(s, q, before, wanted, suggested, c);
      NoOrder(s, q, p.seeds, suggested, c'.interesting, |c.interesting|);
    }
  }

  lemma ConsideredCovered(s: Snapshot, q: Request, c: Picks, pieces: seq<nat>)
    requires ConsideredAll(s, q, c, pieces)
    ensures CoveredAll(s, q, c.interesting, pieces)
  {
    hide Covered;
  }

  /** Without an order every start is as good as any other. */
  lemma NoOrder(s: Snapshot, q: Request, seeds: nat, suggested: seq<nat>, blocks: seq<PieceBlock>, from: nat)
    requires |s.pieceMap| == |q.bits| && !Ordered(q)
    ensures BestFirst(s, q, seeds, suggested, blocks, from)
  {
    hide Exhausted, Touches, Shut;
    forall m | from <= m < |blocks| && blocks[m].piece < |s.pieceMap| && !Shut(s, q, blocks[m].piece)
      ensures exists a: nat :: Leads(s, q, seeds, blocks, a, blocks[m].piece)
    {
      TouchesItself(s, q, blocks[m].piece);
      assert Leads(s, q, seeds, blocks, blocks[m].piece, blocks[m].piece);
    }
  }

  /** What is added once everything free has been considered: backups, then one busy block. `taken` are the free ones. */
  method PickLeftovers(s: Snapshot, q: Request, ghost before: seq<PieceBlock>, ghost wanted: nat, c: Picks, ghost seeds: nat,
                       ghost from: nat)
    returns (result: seq<PieceBlock>, ghost taken: seq<PieceBlock>)
    requires s.Ok() && s.FlagsOk() && |s.pieceMap| == |q.bits|
    requires Picking(s, q, before, wanted, c) && c.left > 0 && Exact(before, wanted, c)
    requires from <= |c.interesting| && AllChoice(s, q, c.interesting, from, 0)
    requires forall k: nat | k < |s.pieceMap| && InReach(q, s.pieceMap[k], seeds) :: Settled(s, q, c, k)
    ensures ByChoice(s, q, seeds, result, from)
    ensures before <= c.interesting <= taken <= result && AllFree(s, q, taken, |before|) && multiset(taken) <= Bag(c)
    ensures WithBusy(s, q, taken, result) && LeftBusy(s, q, before, wanted, taken, result)
    ensures |result| - |before| <= wanted
    ensures Short(before, wanted, result) ==> forall piece: nat | Seen(s, q, c, piece) :: Taken(s, q, result, piece)
  {
    hide Snapshot.Ok, Snapshot.FlagsOk, QueueOk, Free, Busy, Seen, Taken, Bag, Extends, Picking, Found, Choice, AllChoice, InReach,
         Settled, ByChoice;
    var c' := PickBackups(s, q, before, wanted, c);
    var busy := FindBusy(s, q);
    PickingFree(s, q, before, wanted, c');
    ghost var n, n2;
    c', n := AppendBlocks(s, q, before, wanted, c', c'.backup);
    taken := c'.interesting;
    LeftoversMoved(c, taken);
    FoundFree(s, q, before, wanted, c');
    if c'.left <= 0 {
      assert c.backup2[..0] == [];
      ChoicesAppended(s, q, seeds, c, from, n, 0, taken);
      return c'.interesting, taken;
    }
    c', n2 := AppendBlocks(s, q, before, wanted, c', c'.backup2);
    taken := c'.interesting;
    LeftoversMoved(c, taken);
    FoundFree(s, q, before, wanted, c');
    ChoicesAppended(s, q, seeds, c, from, |c.backup|, n2, taken);
    if c'.left <= 0 { return c'.interesting, taken; }
    result := c'.interesting;
    if q.options.onParole { AllTaken(s, q, c, result); return; }
    if busy != [] {
      var i := P.Picker.AnyIndex(0, |busy| - 1);
      result := result + [busy[i]];
      assert result[..|result| - 1] == c'.interesting;
      NotBoth(s, q, busy[i]);
      ByChoiceBusy(s, q, seeds, taken, from, busy[i]);
    }
    AllTaken(s, q, c, result);
  }

  /** A busy block is added exactly if the free ones are too few, the peer is not on parole and there is one; and it is of
      the first piece that has any. */
  ghost predicate LeftBusy(s: Snapshot, q: Request, before: seq<PieceBlock>, wanted: nat, taken: seq<PieceBlock>, result: seq<PieceBlock>) {
    && (result == taken && !q.options.onParole ==> |taken| - |before| >= wanted || forall b: PieceBlock :: !Busy(s, q, b))
    && (result != taken ==>
          0 < |result| && |taken| - |before| < wanted && forall b: PieceBlock | Busy(s, q, b) :: result[|result| - 1].piece <= b.piece)
  }

  /** The same, of the result alone. */
  ghost predicate BusyLast(s: Snapshot, q: Request, before: seq<PieceBlock>, wanted: nat, result: seq<PieceBlock>) {
    if Offers(s, q, result, |before|) then
      Short(before, wanted, result) && !q.options.onParole ==> forall b: PieceBlock :: !Busy(s, q, b)
    else
      0 < |result| && |result| - |before| <= wanted && forall b: PieceBlock | Busy(s, q, b) :: result[|result| - 1].piece <= b.piece
  }

  lemma BusyLastIs(s: Snapshot, q: Request, before: seq<PieceBlock>, wanted: nat, taken: seq<PieceBlock>, result: seq<PieceBlock>)
    requires s.Ok() && |s.pieceMap| == |q.bits| && before <= taken && AllFree(s, q, taken, |before|) && WithBusy(s, q, taken, result)
    requires Picked(s, q, before, result) && LeftBusy(s, q, before, wanted, taken, result)
    ensures BusyLast(s, q, before, wanted, result)
  {
    hide Snapshot.Ok, QueueOk, Busy, Free, Offer;
    if |result| > |before| {
      var last := result[|result| - 1];
      if Busy(s, q, last) { NotBoth(s, q, last); }
      OfferFree(s, q, last);
      assert Offers(s, q, result, |before|) ==> Offer(s, q, last);
    }
  }

  lemma OfferFree(s: Snapshot, q: Request, b: PieceBlock)
    ensures Offer(s, q, b) ==> Free(s, q, b)
  {
  }

  lemma NoneBusyLeft(s: Snapshot, q: Request, before: seq<PieceBlock>, wanted: nat, result: seq<PieceBlock>)
    ensures !Short(before, wanted, result) ==> LeftBusy(s, q, before, wanted, result, result)
  {
    hide Busy;
  }

  /** The free blocks, and possibly a busy one when the peer is not on parole. */
  ghost predicate WithBusy(s: Snapshot, q: Request, taken: seq<PieceBlock>, result: seq<PieceBlock>) {
    || result == taken
    || (0 < |result| && !q.options.onParole && taken == result[..|result| - 1] && Busy(s, q, result[|result| - 1]))
  }

  lemma PickingFree(s: Snapshot, q: Request, before: seq<PieceBlock>, wanted: nat, p: Picks)
    requires Picking(s, q, before, wanted, p)
    ensures before <= p.interesting && AllFree(s, q, p.interesting, |before|)
    ensures AllFree(s, q, p.backup, 0) && AllFree(s, q, p.backup2, 0)
    ensures AllChoice(s, q, p.backup, 0, 1) && AllChoice(s, q, p.backup2, 0, 2) && Found(s, q, before, wanted, p)
    ensures multiset(p.interesting) <= Bag(p) && WithBusy(s, q, p.interesting, p.interesting)
  {
    hide Choice, Free;
  }

  lemma FoundFree(s: Snapshot, q: Request, before: seq<PieceBlock>, wanted: nat, p: Picks)
    requires Found(s, q, before, wanted, p)
    ensures before <= p.interesting && AllFree(s, q, p.interesting, |before|)
    ensures AllFree(s, q, p.backup, 0) && AllFree(s, q, p.backup2, 0) && WithBusy(s, q, p.interesting, p.interesting)
  {
    hide Free;
  }

  lemma ByChoiceBusy(s: Snapshot, q: Request, seeds: nat, blocks: seq<PieceBlock>, from: nat, busy: PieceBlock)
    requires ByChoice(s, q, seeds, blocks, from) && !Free(s, q, busy)
    ensures ByChoice(s, q, seeds, blocks + [busy], from)
  {
    hide Free, Choice, InReach;
    forall m | from <= m < |blocks|
      ensures (blocks + [busy])[..m] == blocks[..m]
    {
    }
  }

  lemma ByChoiceJoin(s: Snapshot, q: Request, seeds: nat, a: seq<PieceBlock>, b: seq<PieceBlock>, from: nat)
    requires ByChoice(s, q, seeds, a, from) && a <= b && ByChoice(s, q, seeds, b, |a|)
    ensures ByChoice(s, q, seeds, b, from)
  {
    hide Free, Choice, InReach;
    forall m | from <= m < |a|
      ensures b[..m] == a[..m]
    {
    }
  }

  lemma TakenSettled(s: Snapshot, q: Request, c: Picks, k: nat)
    requires Taken(s, q, c.interesting, k)
    ensures Settled(s, q, c, k)
  {
    hide Free, Choice;
  }

  /** With blocks still missing, every piece in reach is settled. */
  lemma ReachSettled(s: Snapshot, q: Request, seeds: nat, c0: Picks, c: Picks)
    requires |s.pieceMap| == |q.bits| && c0.interesting <= c.interesting
    requires forall k: nat | k < |s.pieceMap| && Reachable(q, s.pieceMap[k], seeds) ::
               if Ordered(q) then Considered(s, q, c, k) else Covered(s, q, c.interesting, k)
    requires q.options.prioritizePartials ==>
               forall k: nat | k < |s.pieceMap| && s.pieceMap[k].downloading :: Taken(s, q, c0.interesting, k)
    ensures forall k: nat | k < |s.pieceMap| && InReach(q, s.pieceMap[k], seeds) :: Settled(s, q, c, k)
  {
    PrefixIn(c0.interesting, c.interesting);
    forall k: nat | k < |s.pieceMap| && InReach(q, s.pieceMap[k], seeds)
      ensures Settled(s, q, c, k)
    {
      hide Settled, Choice, Reachable;
      if q.options.prioritizePartials {
        TakenSettled(s, q, c, k);
      } else if !s.pieceMap[k].downloading {
        CoveredTaken(s, q, c.interesting, k);
        TakenSettled(s, q, c, k);
      } else if !IsPieceFree(s, k, q.bits) {
        NotFreeNotOffered(s, q, c.interesting, k);
        TakenSettled(s, q, c, k);
      }
    }
  }

  /** Once partial pieces came first, only pieces nobody downloads are looked at; and otherwise nothing that is to be put
      aside is taken. */
  lemma LaterFirstChoice(s: Snapshot, q: Request, before: seq<PieceBlock>, wanted: nat, c0: Picks, c: Picks)
    requires s.Ok() && |s.pieceMap| == |q.bits| && Picking(s, q, before, wanted, c) && Extends(c0, c) && before <= c0.interesting
    requires !q.options.prioritizePartials ==> c0.interesting == before
    requires q.options.prioritizePartials ==> AddsFree(s, q, c0, c)
    ensures AllChoice(s, q, c.interesting, |c0.interesting|, 0)
  {
    if q.options.prioritizePartials {
      forall i | |c0.interesting| <= i < |c.interesting|
        ensures Choice(s, q, c.interesting[i].piece) == 0
      {
        var b := c.interesting[i];
        assert Free(s, q, b);
        BagLarger(c0, c, i);
        assert !Shut(s, q, b.piece);
        QueueAtFind(s.downloads, s.slabs, s.pieceMap, s.blocksPerPiece, s.blocksInLast, b.piece);
      }
    }
  }

  lemma LeftoversMoved(c: Picks, taken: seq<PieceBlock>)
    ensures (exists n: nat :: n <= |c.backup| && taken == c.interesting + c.backup[..n]) ==> multiset(taken) <= Bag(c)
    ensures (exists n: nat :: n <= |c.backup2| && taken == c.interesting + c.backup + c.backup2[..n]) ==> multiset(taken) <= Bag(c)
  {
    if n: nat :| n <= |c.backup| && taken == c.interesting + c.backup[..n] {
      Moved(c.interesting, c.backup, n);
    }
    if n: nat :| n <= |c.backup2| && taken == c.interesting + c.backup + c.backup2[..n] {
      Moved(c.interesting + c.backup, c.backup2, n);
    }
  }

  lemma AllTaken(s: Snapshot, q: Request, c: Picks, result: seq<PieceBlock>)
    requires |c.backup| < c.left && |c.backup2| < c.left
    requires c.interesting + c.backup + c.backup2 <= result
    ensures forall piece: nat | Seen(s, q, c, piece) :: Taken(s, q, result, piece)
  {
    hide Seen, Taken;
    forall piece: nat | Seen(s, q, c, piece)
      ensures Taken(s, q, result, piece)
    {
      SeenTaken(s, q, c, result, piece);
    }
  }

  /** What was found first, and then more. */
  lemma BestFirstJoin(s: Snapshot, q: Request, seeds: nat, suggested: seq<nat>, a: seq<PieceBlock>, b: seq<PieceBlock>, from: nat)
    requires |s.pieceMap| == |q.bits| && BestFirst(s, q, seeds, suggested, a, from) && a <= b && BestFirst(s, q, seeds, suggested, b, |a|)
    ensures BestFirst(s, q, seeds, suggested, b, from)
  {
    hide Leads, Touches, Shut;
    forall m | from <= m < |a| && a[m].piece < |s.pieceMap| && !Shut(s, q, a[m].piece)
      ensures || (exists k: nat :: k < |suggested| && Touches(s, q, suggested[k], b[m].piece))
              || (exists piece: nat :: Leads(s, q, seeds, b, piece, b[m].piece))
    {
      if piece: nat :| Leads(s, q, seeds, a, piece, a[m].piece) {
        LeadsStay(s, q, seeds, a, b, piece, a[m].piece);
      }
    }
  }

  /** What a pick that falls short has looked at: partial pieces when they come first, and in their turn those that are
      not marked full; pieces nobody downloads as far as the order reaches them. */
  predicate Findable(q: Request, piece: PiecePos, seeds: nat) {
    if piece.downloading && q.options.prioritizePartials then true
    else Reachable(q, piece, seeds) && (piece.downloading ==> Ordered(q) && !piece.full && !piece.Filtered())
  }

  /** With every piece in reach considered, no block comes too early. */
  lemma ShortBestFirst(s: Snapshot, q: Request, seeds: nat, suggested: seq<nat>, c: Picks, result: seq<PieceBlock>, from: nat)
    requires |s.pieceMap| == |q.bits| && c.interesting <= result
    requires Ordered(q) ==> forall k: nat | k < |s.pieceMap| && Reachable(q, s.pieceMap[k], seeds) :: Considered(s, q, c, k)
    requires c.left > 0 && (Ordered(q) && !PutsAside(q) ==> c.backup == c.backup2 == [])
    ensures BestFirst(s, q, seeds, suggested, result, from)
  {
    if !Ordered(q) {
      NoOrder(s, q, seeds, suggested, result, from);
    } else {
      hide Considered, Exhausted, Touches, Shut, Ordered, Reachable, Rank, PutsAside;
      forall k: nat | k < |s.pieceMap| && Reachable(q, s.pieceMap[k], seeds)
        ensures Exhausted(s, q, result, k)
      {
        ConsideredExhausted(s, q, c, k);
        ExhaustedStays(s, q, c.interesting, result, k);
      }
      forall m | from <= m < |result| && result[m].piece < |s.pieceMap| && !Shut(s, q, result[m].piece)
        ensures exists a: nat :: Leads(s, q, seeds, result, a, result[m].piece)
      {
        TouchesItself(s, q, result[m].piece);
        assert Leads(s, q, seeds, result, result[m].piece, result[m].piece);
      }
    }
  }

  /** All that could be found was: nothing is left to offer, and no piece was started too early. */
  lemma FallsShort(s: Snapshot, q: Request, seeds: nat, suggested: seq<nat>, c0: Picks, c: Picks, result: seq<PieceBlock>, from: nat)
    requires |s.pieceMap| == |q.bits| && c0.interesting <= c.interesting <= result
    requires forall k: nat | k < |s.pieceMap| && Reachable(q, s.pieceMap[k], seeds) ::
               if Ordered(q) then Considered(s, q, c, k) else Covered(s, q, c.interesting, k)
    requires q.options.prioritizePartials ==>
               forall k: nat | k < |s.pieceMap| && s.pieceMap[k].downloading :: Taken(s, q, c0.interesting, k)
    requires c.left > 0 && (Ordered(q) && !PutsAside(q) ==> c.backup == c.backup2 == [])
    ensures BestFirst(s, q, seeds, suggested, result, from)
    ensures (forall piece: nat | Seen(s, q, c, piece) :: Taken(s, q, result, piece)) ==>
              forall k: nat | k < |s.pieceMap| && Findable(q, s.pieceMap[k], seeds) :: Taken(s, q, result, k)
  {
    hide Seen, Free, Rank, Reachable, AllPicked;
    forall k: nat | k < |s.pieceMap| && Reachable(q, s.pieceMap[k], seeds)
      ensures Covered(s, q, result, k)
    {
      CoveredStays(s, q, c.interesting, result, k);
    }
    PrefixIn(c0.interesting, result);
    ShortBestFirst(s, q, seeds, suggested, c, result, from);
    if forall piece: nat | Seen(s, q, c, piece) :: Taken(s, q, result, piece) {
      forall k: nat | k < |s.pieceMap| && Findable(q, s.pieceMap[k], seeds)
        ensures Taken(s, q, result, k)
      {
        if !s.pieceMap[k].downloading {
          CoveredTaken(s, q, result, k);
        } else if q.options.prioritizePartials {
          assert Taken(s, q, c0.interesting, k);
        } else if Partial(s, q, k) {
          assert Settled(s, q, c, k);
          SettledSeen(s, q, c, k);
        } else {
          NotFreeNotOffered(s, q, result, k);
        }
      }
    }
  }

  lemma NotFreeNotOffered(s: Snapshot, q: Request, blocks: seq<PieceBlock>, piece: nat)
    requires piece < |s.pieceMap| == |q.bits| && !IsPieceFree(s, piece, q.bits) && !s.pieceMap[piece].Filtered()
    ensures Taken(s, q, blocks, piece)
  {
  }

  /** The free blocks found are offers, none is listed twice where the passes keep apart, and a busy one is new. */
  lemma Finished(s: Snapshot, q: Request, suggested: seq<nat>, order: seq<nat>, before: seq<PieceBlock>, bag: multiset<PieceBlock>,
                 taken: seq<PieceBlock>, result: seq<PieceBlock>, short: bool)
    requires s.Ok() && |s.pieceMap| == |q.bits| && Lawful(s, q, before, suggested, bag)
    requires before <= taken && multiset(taken) <= bag && AllFree(s, q, taken, |before|) && WithBusy(s, q, taken, result)
    requires Frequencies(s, q, suggested, order, taken[|before|..], short)
    ensures Picked(s, q, before, result)
    ensures Frequencies(s, q, suggested, order, result[|before|..], short)
    ensures Apart(s, q) && Distinct(suggested) ==> DistinctBlocks(result[|before|..])
  {
    hide *;
    AllOffers(s, q, before, suggested, bag, taken);
    PickedWith(s, q, before, taken, result);
    BusyIsNew(s, q, before, taken, result);
    FrequenciesBusy(s, q, suggested, order, before, taken, result, short);
    if Apart(s, q) && Distinct(suggested) {
      ListedOnce(s, q, before, suggested, bag, taken);
    }
  }

  lemma PickedWith(s: Snapshot, q: Request, before: seq<PieceBlock>, taken: seq<PieceBlock>, result: seq<PieceBlock>)
    requires before <= taken && Offers(s, q, taken, |before|) && WithBusy(s, q, taken, result)
    ensures Picked(s, q, before, result)
  {
    hide Offer, Busy;
    if result != taken {
      assert taken <= result && |before| < |result|;
      assert Offers(s, q, result[..|result| - 1], |before|);
    }
  }

  lemma AllOffers(s: Snapshot, q: Request, before: seq<PieceBlock>, suggested: seq<nat>, bag: multiset<PieceBlock>, taken: seq<PieceBlock>)
    requires |s.pieceMap| == |q.bits| && Lawful(s, q, before, suggested, bag)
    requires before <= taken && multiset(taken) <= bag && AllFree(s, q, taken, |before|)
    ensures Offers(s, q, taken, |before|)
  {
    hide Distinct;
    forall i | |before| <= i < |taken|
      ensures Offer(s, q, taken[i])
    {
      assert Free(s, q, taken[i]);
      AddedPart(before, taken, taken[i]);
      assert taken[i] == taken[|before|..][i - |before|];
    }
  }

  lemma ListedOnce(s: Snapshot, q: Request, before: seq<PieceBlock>, suggested: seq<nat>, bag: multiset<PieceBlock>, taken: seq<PieceBlock>)
    requires |s.pieceMap| == |q.bits| && Lawful(s, q, before, suggested, bag) && Apart(s, q) && Distinct(suggested)
    requires before <= taken && multiset(taken) <= bag
    ensures DistinctBlocks(taken[|before|..])
  {
    hide Distinct, DistinctBlocks;
    forall b: PieceBlock
      ensures multiset(taken[|before|..])[b] <= 1
    {
      AddedPart(before, taken, b);
    }
    CountsDistinct(taken[|before|..]);
  }

  /** A busy block is no free one, and not of a piece nobody downloads. */
  lemma BusyIsNew(s: Snapshot, q: Request, before: seq<PieceBlock>, taken: seq<PieceBlock>, result: seq<PieceBlock>)
    requires s.Ok() && |s.pieceMap| == |q.bits| && before <= taken && AllFree(s, q, taken, |before|) && WithBusy(s, q, taken, result)
    ensures before <= result && taken <= result
    ensures DistinctBlocks(taken[|before|..]) ==> DistinctBlocks(result[|before|..])
    ensures result != taken ==> !Fresh(s, q, result[|result| - 1])
  {
    if result != taken {
      var last := result[|result| - 1];
      NotBoth(s, q, last);
      forall i | |before| <= i < |taken|
        ensures taken[i] != last
      {
        assert Free(s, q, taken[i]);
      }
      hide Free, Busy, Fresh, QueueOk, Snapshot.Ok;
      assert forall i | 0 <= i < |taken| - |before| :: taken[|before|..][i] == result[|before|..][i] == taken[i + |before|];
    }
  }

  lemma NotBoth(s: Snapshot, q: Request, b: PieceBlock)
    requires s.Ok() && |s.pieceMap| == |q.bits| && Busy(s, q, b)
    ensures !Free(s, q, b) && !Fresh(s, q, b)
  {
    QueueView(s.downloads, s.slabs, s.pieceMap, s.blocksPerPiece, s.blocksInLast, b.piece);
  }

  lemma FrequenciesBusy(s: Snapshot, q: Request, suggested: seq<nat>, order: seq<nat>, before: seq<PieceBlock>,
                        taken: seq<PieceBlock>, result: seq<PieceBlock>, short: bool)
    requires |s.pieceMap| == |q.bits| && before <= taken && WithBusy(s, q, taken, result)
    requires result != taken ==> !Fresh(s, q, result[|result| - 1])
    requires Frequencies(s, q, suggested, order, taken[|before|..], short)
    ensures Frequencies(s, q, suggested, order, result[|before|..], short)
  {
    hide Visits, Fresh, Busy;
    if result != taken {
      assert result[|before|..] == taken[|before|..] + [result[|result| - 1]];
    }
  }

  /** Asking for more blocks than there are, partial pieces leave something to find. */
  lemma EnoughAsked(s: Snapshot, q: Request, wanted: nat, c: Picks, c0: Picks)
    requires s.Ok() && |s.pieceMap| == |q.bits| && c.backup == c.backup2 == []
    requires Picking(s, q, c.interesting, wanted, c0) && AddsDownloading(s, c, c0)
    requires wanted > |s.pieceMap| * s.blocksPerPiece
    ensures c0.left > 0
  {
    var before, added := c.interesting, c0.interesting[|c.interesting|..];
    assert s.blocksInLast <= s.blocksPerPiece;
    forall b: PieceBlock
      ensures multiset(added)[b] <= 1
    {
      AddedPart(before, c0.interesting, b);
      assert Bag(c) == multiset(before) && multiset(c0.interesting)[b] <= Bag(c0)[b];
    }
    CountsDistinct(added);
    forall i | 0 <= i < |added|
      ensures added[i].piece < |s.pieceMap| && added[i].block < s.blocksPerPiece
    {
      assert added[i] == c0.interesting[i + |before|] && Free(s, q, c0.interesting[i + |before|]);
    }
    hide QueueOk, Snapshot.Ok, Free, AddsDownloading, Bag, AllFree;
    AtMostAll(added, |s.pieceMap|, s.blocksPerPiece);
  }

  lemma PickedAt(s: Snapshot, q: Request, before: seq<PieceBlock>, result: seq<PieceBlock>, i: nat)
    requires Picked(s, q, before, result) && |before| <= i < |result|
    ensures Offer(s, q, result[i]) || Busy(s, q, result[i])
  {
    hide Offer, Busy;
    if !Offers(s, q, result, |before|) && i < |result| - 1 {
      assert Offer(s, q, result[..|result| - 1][i]);
    }
  }

  /** Free blocks of filtered pieces belong to downloading ones; busy blocks are of wanted pieces. */
  lemma FilteredKinds(s: Snapshot, q: Request, b: PieceBlock, result: seq<PieceBlock>)
    requires |s.pieceMap| == |q.bits| && b.piece < |s.pieceMap| && s.pieceMap[b.piece].Filtered()
    ensures !Busy(s, q, b) && (Free(s, q, b) ==> s.pieceMap[b.piece].downloading)
    ensures Offer(s, q, b) ==> Free(s, q, b) && q.options.prioritizePartials
    ensures Free(s, q, b) && Taken(s, q, result, b.piece) ==> b in result
  {
    assert PieceBlock(b.piece, b.block) == b;
  }

  /** A filtered block is listed exactly if it is free and partial pieces come first, once all of those were taken. */
  lemma FilteredExactly(s: Snapshot, q: Request, result: seq<PieceBlock>)
    requires |s.pieceMap| == |q.bits| && Picked(s, q, [], result)
    requires q.options.prioritizePartials ==>
               forall k: nat | k < |s.pieceMap| && s.pieceMap[k].downloading :: Taken(s, q, result, k)
    ensures forall b: PieceBlock | b.piece < |s.pieceMap| && s.pieceMap[b.piece].Filtered() ::
              b in result <==> q.options.prioritizePartials && Free(s, q, b)
  {
    hide Offer, Busy, Free, Taken, Picked;
    forall b: PieceBlock | b.piece < |s.pieceMap| && s.pieceMap[b.piece].Filtered()
      ensures b in result <==> q.options.prioritizePartials && Free(s, q, b)
    {
      FilteredKinds(s, q, b, result);
      if i: nat :| i < |result| && result[i] == b {
        PickedAt(s, q, [], result, i);
      }
    }
  }

  /** Free blocks are not busy, and those on offer are where a pick that falls short has looked. */
  lemma FreeKind(s: Snapshot, q: Request, b: PieceBlock, seeds: nat, result: seq<PieceBlock>)
    requires Free(s, q, b) && (Ordered(q) || q.options.prioritizePartials) && Reachable(q, s.pieceMap[b.piece], seeds)
    ensures !Busy(s, q, b) && (Offer(s, q, b) ==> Findable(q, s.pieceMap[b.piece], seeds))
    ensures Taken(s, q, result, b.piece) ==> b in result
  {
    assert PieceBlock(b.piece, b.block) == b;
  }

  /** Falling short, a pick in an order lists exactly the offers among the free blocks it can reach. */
  lemma FoundExactly(s: Snapshot, q: Request, seeds: nat, result: seq<PieceBlock>)
    requires |s.pieceMap| == |q.bits| && Picked(s, q, [], result) && (Ordered(q) || q.options.prioritizePartials)
    requires forall k: nat | k < |s.pieceMap| && Findable(q, s.pieceMap[k], seeds) :: Taken(s, q, result, k)
    ensures forall b: PieceBlock | Free(s, q, b) && Reachable(q, s.pieceMap[b.piece], seeds) :: b in result <==> Offer(s, q, b)
  {
    forall b: PieceBlock | Free(s, q, b) && Reachable(q, s.pieceMap[b.piece], seeds)
      ensures b in result <==> Offer(s, q, b)
    {
      FreeKind(s, q, b, seeds, result);
      hide Offer, Busy, Free, Taken, Picked, Findable, Reachable;
      if i: nat :| i < |result| && result[i] == b {
        PickedAt(s, q, [], result, i);
      }
    }
  }

  lemma TakenStays(s: Snapshot, q: Request, a: seq<PieceBlock>, b: seq<PieceBlock>)
    requires a <= b
    ensures forall k: nat :: Taken(s, q, a, k) ==> Taken(s, q, b, k)
  {
    hide Free;
    PrefixIn(a, b);
  }

  /** Fewer blocks were found than asked for. */
  ghost predicate Short(before: seq<PieceBlock>, wanted: nat, result: seq<PieceBlock>) {
    |result| - |before| < wanted
  }

  /** Once everything is found, and what a picker being valid says of its snapshot. */
  lemma NotShort(s: Snapshot, q: Request, before: seq<PieceBlock>, wanted: nat, p: Picks)
    requires Picking(s, q, before, wanted, p) && p.left <= 0
    ensures !Short(before, wanted, p.interesting)
    ensures q.whole == 0 ==> |p.interesting| - |before| <= wanted
  {
    hide Free;
  }

  lemma SnapshotValid(p: P.Picker, s: Snapshot, q: Request, c: Picks)
    requires p.Valid() && p.FullValid() && |q.bits| == |p.pieceMap|
    requires s == Snapshot(p.pieceMap, p.downloads, p.slabs, p.blocksPerPiece, p.blocksInLast)
    ensures SnapshotOf(p) == s && s.Ok() && s.FlagsOk() && p.cursor >= 0 && MovedOnly(p.pieceMap, p.pieceMap)
    ensures c.left >= 0 && c.backup == c.backup2 == [] ==>
              Picking(s, q, c.interesting, c.left, c) && Exact(c.interesting, c.left, c)
    ensures forall p: Picks :: ConsideredAll(s, q, p, [])
  {
    hide B.Clean, QueueBut, FullOk, C.Total, Free;
    MovedNone(p.pieceMap);
  }

  lemma FullAfter(p: P.Picker, s: Snapshot)
    requires s.FlagsOk() && MovedOnly(s.pieceMap, p.pieceMap)
    requires s == Snapshot(s.pieceMap, p.downloads, p.slabs, p.blocksPerPiece, p.blocksInLast)
    ensures p.FullValid()
  {
    hide FullOk;
    forall i | 0 <= i < |s.pieceMap|
      ensures p.pieceMap[i].full == s.pieceMap[i].full && (p.pieceMap[i].downloading ==> s.pieceMap[i].downloading)
    {
      assert p.pieceMap[i].SameButIndex(s.pieceMap[i]);
    }
    FullMoved(s.downloads, s.slabs, s.pieceMap, p.pieceMap, s.blocksPerPiece, s.blocksInLast);
  }

  /** The passes one after the other: partial pieces from c to c0, suggested ones to c1, the rest to c2. */
  ghost predicate Passes(s: Snapshot, q: Request, suggested: seq<nat>, order: seq<nat>, wanted: nat,
                         c: Picks, c0: Picks, c1: Picks, c2: Picks)
    requires |s.pieceMap| == |q.bits|
  {
    && c.backup == c.backup2 == []
    && (if q.options.prioritizePartials then AddsDownloading(s, c, c0) else c0 == c)
    && Picking(s, q, c.interesting, wanted, c0) && Extends(c, c0)
    && (q.options.prioritizePartials && c0.left > 0 ==>
          forall k: nat | k < |s.pieceMap| && s.pieceMap[k].downloading :: Taken(s, q, c0.interesting, k))
    && Counted(s, q, c0, c1, suggested, []) && Extends(c0, c1)
    && Extends(c1, c2) && AddsFree(s, q, c1, c2) && (Apart(s, q) ==> AddsOpen(s, q, suggested, c1, c2))
    && (Ordered(q) ==> Counted(s, q, c1, c2, order, suggested))
  }

  lemma PassesStop(s: Snapshot, q: Request, suggested: seq<nat>, order: seq<nat>, wanted: nat, c: Picks, c0: Picks, c1: Picks)
    requires |s.pieceMap| == |q.bits| && c.backup == c.backup2 == []
    requires if q.options.prioritizePartials then AddsDownloading(s, c, c0) else c0 == c
    requires Picking(s, q, c.interesting, wanted, c0) && Extends(c, c0)
    requires q.options.prioritizePartials && c0.left > 0 ==>
               forall k: nat | k < |s.pieceMap| && s.pieceMap[k].downloading :: Taken(s, q, c0.interesting, k)
    ensures Passes(s, q, suggested, order, wanted, c, c0, c0, c0)
    ensures Extends(c0, c0)
    ensures Counted(s, q, c0, c1, suggested, []) && Extends(c0, c1) ==> Passes(s, q, suggested, order, wanted, c, c0, c1, c1)
  {
    hide Taken, Picking, Counted, AddsDownloading, AddsFree, AddsOpen;
    NothingAdded(s, q, suggested, c0);
    NothingAdded(s, q, suggested, c1);
    CountedNone(s, q, c0, suggested, []);
    CountedNone(s, q, c0, order, suggested);
    CountedNone(s, q, c1, order, suggested);
  }

  lemma PassesStart(s: Snapshot, q: Request, c: Picks, before: seq<PieceBlock>)
    requires |s.pieceMap| == |q.bits| && c.interesting == before
    ensures Extends(c, c) && |c.interesting| == |before|
  {
  }

  lemma PassesEnd(s: Snapshot, q: Request, suggested: seq<nat>, order: seq<nat>, wanted: nat, c: Picks, c0: Picks, c1: Picks, c2: Picks)
    requires |s.pieceMap| == |q.bits| && (exists any: seq<nat> :: Passes(s, q, suggested, any, wanted, c, c0, c1, c1))
    requires Extends(c1, c2) && AddsFree(s, q, c1, c2) && (Apart(s, q) ==> AddsOpen(s, q, suggested, c1, c2))
    requires Ordered(q) ==> Counted(s, q, c1, c2, order, suggested)
    ensures Passes(s, q, suggested, order, wanted, c, c0, c1, c2)
    ensures c0.interesting <= c1.interesting <= c2.interesting
  {
    hide Taken, Picking, Counted, AddsDownloading, AddsFree, AddsOpen, Ordered;
  }

  /** So far only suggested and partial pieces were looked at. */
  lemma SuggestedBestFirst(s: Snapshot, q: Request, seeds: nat, suggested: seq<nat>, c0: Picks, c1: Picks, from: nat)
    requires |s.pieceMap| == |q.bits| && OfDownloads(s, c0.interesting, from) && Extends(c0, c1)
    requires q.options.prioritizePartials || |c0.interesting| == from
    requires InOrder(s, q, c0, c1, suggested, []) || c0 == c1
    ensures BestFirst(s, q, seeds, suggested, c1.interesting, from)
  {
    hide Touches, Exhausted, Leads, IsPieceFree;
    forall m | from <= m < |c1.interesting| && c1.interesting[m].piece < |s.pieceMap| && !Shut(s, q, c1.interesting[m].piece)
      ensures exists k: nat :: k < |suggested| && Touches(s, q, suggested[k], c1.interesting[m].piece)
    {
      assert m >= |c0.interesting|;
      assert Led(s, q, c1.interesting, suggested, [], c1.interesting[m].piece);
      var k: nat :| LedBy(s, q, c1.interesting, suggested, [], k, c1.interesting[m].piece);
    }
  }

  /** The passes after the partial pieces add blocks of open pieces only. */
  lemma LaterPasses(s: Snapshot, q: Request, suggested: seq<nat>, order: seq<nat>, wanted: nat, c: Picks, c0: Picks, c1: Picks, c2: Picks)
    requires |s.pieceMap| == |q.bits| && Passes(s, q, suggested, order, wanted, c, c0, c1, c2)
    ensures Extends(c0, c2) && AddsFree(s, q, c0, c2) && c.interesting <= c0.interesting <= c2.interesting
    ensures !q.options.prioritizePartials ==> c0.interesting == c.interesting
  {
    CountedFree(s, q, c0, c1, suggested, []);
    FreeTwice(s, q, c0, c1, c2);
    hide Taken, Picking, Counted, AddsDownloading, AddsFree, AddsOpen, Ordered;
  }

  lemma StartChoice(s: Snapshot, q: Request, c: Picks, c0: Picks)
    ensures c0 == c ==> forall seeds: nat :: ByChoice(s, q, seeds, c0.interesting, |c.interesting|)
  {
    hide Free, Choice, InReach;
  }

  /** Up to here nothing was taken of what was put aside later. */
  lemma EarlyChoice(s: Snapshot, q: Request, seeds: nat, before: seq<PieceBlock>, wanted: nat, c0: Picks, c: Picks)
    requires s.Ok() && |s.pieceMap| == |q.bits| && Picking(s, q, before, wanted, c) && Extends(c0, c) && before <= c0.interesting
    requires !q.options.prioritizePartials ==> c0.interesting == before
    requires c0 == c || (q.options.prioritizePartials ==> AddsFree(s, q, c0, c))
    requires ByChoice(s, q, seeds, c0.interesting, |before|)
    ensures ByChoice(s, q, seeds, c.interesting, |before|)
  {
    if c0 != c {
      LaterFirstChoice(s, q, before, wanted, c0, c);
      ByFirstChoice(s, q, c.interesting, |c0.interesting|);
      ByChoiceJoin(s, q, seeds, c0.interesting, c.interesting, |before|);
    }
  }

  /** Suggested pieces come first, in the order given: a block of a piece that is looked at in its turn comes from a suggested
      one before which every suggested piece is exhausted, or else all of them are. */
  ghost predicate SuggestedFirst(s: Snapshot, q: Request, suggested: seq<nat>, blocks: seq<PieceBlock>, from: nat)
    requires |s.pieceMap| == |q.bits|
  {
    || ExhaustedAll(s, q, blocks, suggested)
    || forall m | from <= m < |blocks| && blocks[m].piece < |s.pieceMap| && !Shut(s, q, blocks[m].piece) ::
         Led(s, q, blocks, suggested, [], blocks[m].piece)
  }

  lemma SuggestedLed(s: Snapshot, q: Request, suggested: seq<nat>, c0: Picks, c1: Picks, from: nat)
    requires |s.pieceMap| == |q.bits| && OfDownloads(s, c0.interesting, from) && Extends(c0, c1)
    requires q.options.prioritizePartials || |c0.interesting| == from
    requires InOrder(s, q, c0, c1, suggested, []) || c0 == c1
    ensures SuggestedFirst(s, q, suggested, c1.interesting, from)
  {
    hide Led, ExhaustedAll, IsPieceFree;
  }

  lemma SuggestedDone(s: Snapshot, q: Request, suggested: seq<nat>, c: Picks, blocks: seq<PieceBlock>, from: nat)
    requires |s.pieceMap| == |q.bits| && ConsideredAll(s, q, c, suggested) && c.interesting <= blocks
    ensures SuggestedFirst(s, q, suggested, blocks, from)
  {
    hide Considered, Exhausted, Led, Shut;
    forall k | 0 <= k < |suggested|
      ensures Exhausted(s, q, blocks, suggested[k])
    {
      ConsideredExhausted(s, q, c, suggested[k]);
      ExhaustedStays(s, q, c.interesting, blocks, suggested[k]);
    }
  }

  lemma EffectiveBits(q: Request, numDownloads: nat, numPeers: nat)
    ensures Effective(q, numDownloads, numPeers).bits == q.bits
  {
  }

  /** What the passes put together say about the result. */
  lemma Concluded(s: Snapshot, q: Request, suggested: seq<nat>, order: seq<nat>, wanted: nat,
                  c: Picks, c0: Picks, c1: Picks, c2: Picks, taken: seq<PieceBlock>, result: seq<PieceBlock>)
    requires s.Ok() && |s.pieceMap| == |q.bits| && Passes(s, q, suggested, order, wanted, c, c0, c1, c2)
    requires c.interesting <= c2.interesting <= taken && AllFree(s, q, taken, |c.interesting|) && multiset(taken) <= Bag(c2)
    requires WithBusy(s, q, taken, result) && LeftBusy(s, q, c.interesting, wanted, taken, result)
    requires Short(c.interesting, wanted, result) ==> Repeated(s, q, c0.interesting, c1.interesting, suggested, [])
    requires Short(c.interesting, wanted, result) && order != [] ==> Repeated(s, q, c1.interesting, c2.interesting, order, suggested)
    ensures Picked(s, q, c.interesting, result) && BusyLast(s, q, c.interesting, wanted, result)
    ensures Apart(s, q) && Distinct(suggested) ==> DistinctBlocks(result[|c.interesting|..])
    ensures Frequencies(s, q, suggested, order, result[|c.interesting|..], Short(c.interesting, wanted, result))
    ensures wanted > |s.pieceMap| * s.blocksPerPiece && c.interesting == [] ==>
              forall b: PieceBlock | b.piece < |s.pieceMap| && s.pieceMap[b.piece].Filtered() ::
                b in result <==> q.options.prioritizePartials && Free(s, q, b)
  {
    hide Snapshot.Ok, AddsDownloading, Picking, Taken, Counted, AddsFree, AddsOpen, AllFree, Bag, WithBusy, Short, Repeated, Picked,
         Distinct, DistinctBlocks, Frequencies, Free, Lawful, Busy, BusyLast, LeftBusy;
    var short := Short(c.interesting, wanted, result);
    LawfulPick(s, q, suggested, c, c0, c1, c2);
    FrequenciesOf(s, q, suggested, order, c, c0, c1, c2, taken, short);
    Finished(s, q, suggested, order, c.interesting, Bag(c2), taken, result, short);
    BusyLastIs(s, q, c.interesting, wanted, taken, result);
    if wanted > |s.pieceMap| * s.blocksPerPiece && c.interesting == [] {
      if q.options.prioritizePartials {
        EnoughAsked(s, q, wanted, c, c0);
        BusyIsNew(s, q, c.interesting, taken, result);
        TakenStays(s, q, c0.interesting, result);
      }
      FilteredExactly(s, q, result);
    }
  }

  /** Chooses up to `numBlocks` blocks to request from one peer. The result falls short only if there is nothing more
      to find, and with an order asked for no piece is started before a better one was taken completely. No block is
      listed twice, unless runs of whole pieces are taken or a piece is suggested twice. */
  method PickPieces(p: P.Picker, request: Request, interesting: seq<PieceBlock>, numBlocks: nat,
                    suggested: seq<nat>, numPeers: nat)
    returns (result: seq<PieceBlock>)
    requires p.Valid() && p.FullValid() && 0 < |p.pieceMap| == |request.bits| && numBlocks > 0
    requires !(request.options.rarestFirst && request.options.sequential)
    requires AllPieces(suggested, |p.pieceMap|)
    modifies p`pieces, p`bounds, p`pieceMap, p`dirty
    ensures p.Valid() && p.FullValid() && MovedOnly(old(p.pieceMap), p.pieceMap)
    ensures old(p.cursor) >= 0
    ensures var s := old(SnapshotOf(p));
      var q := Effective(request, |s.downloads|, numPeers);
      && Picked(s, q, interesting, result) && BusyLast(s, q, interesting, numBlocks, result)
      && (q.whole == 0 ==> |result| - |interesting| <= numBlocks)
      && (Short(interesting, numBlocks, result) ==>
            forall k: nat | k < |s.pieceMap| && Findable(q, s.pieceMap[k], p.seeds) :: Taken(s, q, result, k))
      && (Short(interesting, numBlocks, result) && interesting == [] && (Ordered(q) || q.options.prioritizePartials) ==>
            forall b: PieceBlock | Free(s, q, b) && Reachable(q, s.pieceMap[b.piece], p.seeds) :: b in result <==> Offer(s, q, b))
      && BestFirst(s, q, p.seeds, suggested, result, |interesting|)
      && SuggestedFirst(s, q, suggested, result, |interesting|)
      && ByChoice(s, q, p.seeds, result, |interesting|)
      && (Apart(s, q) ==> InTurn(s, q, p.seeds, suggested, result, |interesting|))
      && (Apart(s, q) && Distinct(suggested) ==> DistinctBlocks(result[|interesting|..]))
      && Frequencies(s, q, suggested, OrderOf(p, q), result[|interesting|..], Short(interesting, numBlocks, result))
      && (Short(interesting, numBlocks, result) && q.options.rarestFirst && !q.options.sequential ==>
            forall k: nat | k < |s.pieceMap| && s.pieceMap[k].Priority(p.seeds) >= 0 :: k in OrderOf(p, q))
      && (numBlocks > |s.pieceMap| * s.blocksPerPiece && interesting == [] ==>
            forall b: PieceBlock | b.piece < |s.pieceMap| && s.pieceMap[b.piece].Filtered() ::
              b in result <==> q.options.prioritizePartials && Free(s, q, b))
  {
    hide *;
    var s := Snapshot(p.pieceMap, p.downloads, p.slabs, p.blocksPerPiece, p.blocksInLast);
    var q := Effective(request, |s.downloads|, numPeers);
    EffectiveBits(request, |s.downloads|, numPeers);
    var c := Picks(interesting, [], [], numBlocks);
    SnapshotValid(p, s, q, c);
    ghost var start := c;
    DownloadsNone(s, c);
    PassesStart(s, q, c, interesting);
    if q.options.prioritizePartials {
      c := PickPartials(s, q, interesting, numBlocks, c);
    }
    StartChoice(s, q, start, c);
    ghost var c0 := c;
    PassesStop(s, q, suggested, OrderOf(p, q), numBlocks, start, c0, c0);
    SuggestedBestFirst(s, q, p.seeds, suggested, c, c, |interesting|);
    SuggestedLed(s, q, suggested, c, c, |interesting|);
    PickingFree(s, q, interesting, numBlocks, c);
    if c.left <= 0 {
      NotShort(s, q, interesting, numBlocks, c);
      NoneBusyLeft(s, q, interesting, numBlocks, c.interesting);
      EarlyChoice(s, q, p.seeds, interesting, numBlocks, c0, c0);
      BestInTurn(s, q, p.seeds, suggested, c.interesting, |interesting|);
      Concluded(s, q, suggested, OrderOf(p, q), numBlocks, start, c0, c0, c0, c.interesting, c.interesting);
      return c.interesting;
    }
    c := AddInOrder(s, q, interesting, numBlocks, suggested, [], c);
    ghost var c1 := c;
    PassesStop(s, q, suggested, OrderOf(p, q), numBlocks, start, c0, c1);
    SuggestedBestFirst(s, q, p.seeds, suggested, c0, c1, |interesting|);
    SuggestedLed(s, q, suggested, c0, c1, |interesting|);
    PickingFree(s, q, interesting, numBlocks, c);
    if c.left <= 0 {
      NotShort(s, q, interesting, numBlocks, c);
      NoneBusyLeft(s, q, interesting, numBlocks, c.interesting);
      LaterPasses(s, q, suggested, OrderOf(p, q), numBlocks, start, c0, c1, c1);
      EarlyChoice(s, q, p.seeds, interesting, numBlocks, c0, c1);
      BestInTurn(s, q, p.seeds, suggested, c.interesting, |interesting|);
      Concluded(s, q, suggested, OrderOf(p, q), numBlocks, start, c0, c1, c1, c.interesting, c.interesting);
      return c.interesting;
    }
    c := PickFresh(p, s, q, interesting, numBlocks, suggested, c);
    FullAfter(p, s);
    ghost var c2 := c;
    PassesEnd(s, q, suggested, OrderOf(p, q), numBlocks, start, c0, c1, c2);
    SuggestedDone(s, q, suggested, c1, c.interesting, |interesting|);
    BestFirstJoin(s, q, p.seeds, suggested, c1.interesting, c2.interesting, |interesting|);
    PickingFree(s, q, interesting, numBlocks, c);
    LaterPasses(s, q, suggested, OrderOf(p, q), numBlocks, start, c0, c1, c2);
    if c.left <= 0 {
      NotShort(s, q, interesting, numBlocks, c);
      NoneBusyLeft(s, q, interesting, numBlocks, c.interesting);
      EarlyChoice(s, q, p.seeds, interesting, numBlocks, c0, c2);
      BestInTurn(s, q, p.seeds, suggested, c.interesting, |interesting|);
      Concluded(s, q, suggested, OrderOf(p, q), numBlocks, start, c0, c1, c2, c.interesting, c.interesting);
      return c.interesting;
    }
    ghost var taken;
    ReachSettled(s, q, p.seeds, c0, c);
    LaterFirstChoice(s, q, interesting, numBlocks, c0, c2);
    result, taken := PickLeftovers(s, q, interesting, numBlocks, c, p.seeds, |c0.interesting|);
    ByChoiceJoin(s, q, p.seeds, c0.interesting, result, |interesting|);
    SuggestedDone(s, q, suggested, c1, result, |interesting|);
    FallsShort(s, q, p.seeds, suggested, c0, c, result, |interesting|);
    BestInTurn(s, q, p.seeds, suggested, result, |interesting|);
    Concluded(s, q, suggested, OrderOf(p, q), numBlocks, start, c0, c1, c2, taken, result);
    if Short(interesting, numBlocks, result) && interesting == [] && (Ordered(q) || q.options.prioritizePartials) {
      FoundExactly(s, q, p.seeds, result);
    }
  }
}
