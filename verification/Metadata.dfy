/** The metadata exchange: 256 blocks of the metadata, whatever its size, and the bytes they stand for. */
module Metadata {
  import opened Common

  /** A range: of blocks, or of bytes. */
  datatype Range = Range(start: int, size: int)

  function DivRoundUp(numerator: nat, denominator: nat): nat
    requires denominator > 0
  {
    (numerator + denominator - 1) / denominator
  }

  /** The first byte of block i, and the block that byte x is in. */
  function Up(i: nat, total: nat): nat {
    DivRoundUp(i * total, 256)
  }

  function Down(x: nat, total: nat): nat
    requires total > 0
  {
    x * 256 / total
  }

  predicate Request(r: Range) {
    0 <= r.start && 0 < r.size && r.start + r.size <= 256
  }

  function ReqToOffset(req: Range, total: nat): Range
    requires 0 <= req.start && 0 <= req.size
  {
    var start := Up(req.start, total);
    Range(start, Up(req.start + req.size, total) - start)
  }

  function OffsetToReq(offset: Range, total: nat): Range
    requires 0 <= offset.start && 0 <= offset.start + offset.size && total > 0
  {
    var start := Down(offset.start, total);
    Range(start, Down(offset.start + offset.size, total) - start)
  }

  lemma DivBound(a: nat, d: nat, i: nat)
    requires d > 0
    ensures i <= a / d <==> i * d <= a
  {
    QuotientBound(a / d, a % d, d, i);
  }

  lemma QuotientBound(q: nat, r: nat, d: nat, i: nat)
    requires r < d
    ensures i <= q <==> i * d <= q * d + r
  {
    if i <= q { Multiples(i, q, d); }
    if q < i { Multiples(q + 1, i, d); }
  }

  lemma Multiples(a: nat, b: nat, d: nat)
    requires a <= b
    ensures a * d <= b * d && (a > 0 ==> (a - 1) * d + d == a * d)
  {
    var k := b - a;
    assert b * d == a * d + k * d;
  }

  /** Rounding blocks up to bytes and bytes down to blocks are adjoint. */
  lemma Adjoint(i: nat, x: nat, total: nat)
    requires total > 0
    ensures Up(i, total) <= x <==> i <= Down(x, total)
  {
    DivBound(x * 256, total, i);
    var n := i * total;
    assert DivRoundUp(n, 256) <= x <==> n <= 256 * x;
  }

  lemma UpGrows(i: nat, j: nat, total: nat)
    requires i <= j
    ensures Up(i, total) <= Up(j, total)
  {
    assert (j - i) * total >= 0;
  }

  /** Going to bytes, back and to bytes again is going to bytes. */
  lemma UpDownUp(i: nat, total: nat)
    requires total > 0
    ensures i <= Down(Up(i, total), total) && Up(Down(Up(i, total), total), total) == Up(i, total)
  {
    var x := Up(i, total);
    Adjoint(i, x, total);
    Adjoint(Down(x, total), x, total);
    UpGrows(i, Down(x, total), total);
  }

  /** Converting a range of bytes that stands for blocks to blocks and back gives it again. */
  lemma OffsetIdentity(req: Range, total: nat)
    requires Request(req) && total > 0
    ensures ReqToOffset(req, total).size >= 0
    ensures var back := OffsetToReq(ReqToOffset(req, total), total);
      0 <= back.start && 0 <= back.size && ReqToOffset(back, total) == ReqToOffset(req, total)
  {
    UpGrows(req.start, req.start + req.size, total);
    UpDownUp(req.start, total);
    UpDownUp(req.start + req.size, total);
    DownGrows(Up(req.start, total), Up(req.start + req.size, total), total);
    hide Up, Down;
  }

  lemma DownGrows(x: nat, y: nat, total: nat)
    requires x <= y && total > 0
    ensures Down(x, total) <= Down(y, total)
  {
    DivBound(y * 256, total, Down(x, total));
    DivBound(x * 256, total, Down(x, total));
  }

  /** With a byte for every block no two blocks start at the same byte. */
  lemma UpStrict(i: nat, total: nat)
    requires total >= 256
    ensures Up(i, total) < Up(i + 1, total)
  {
    assert (i + 1) * total == i * total + total;
  }

  lemma {:induction false} UpAtLeast(i: nat, total: nat)
    requires total > 0 && i <= 256 && forall k: nat | k < 256 :: Up(k, total) < Up(k + 1, total)
    ensures Up(i, total) >= i
  {
    if i > 0 { UpAtLeast(i - 1, total); }
  }

  lemma DownUpIs(i: nat, total: nat)
    requires total >= 256
    ensures Down(Up(i, total), total) == i
  {
    var x := Up(i, total);
    UpDownUp(i, total);
    UpStrict(i, total);
    Adjoint(i + 1, x, total);
  }

  /** The two conversions are inverse on all requests exactly if there is a byte for every block. */
  lemma InverseWhen(total: nat)
    requires total > 0
    ensures (forall req | Request(req) :: OffsetToReq(RequestBytes(req, total), total) == req) <==> total >= 256
  {
    if total >= 256 {
      forall req | Request(req)
        ensures OffsetToReq(RequestBytes(req, total), total) == req
      {
        DownUpIs(req.start, total);
        DownUpIs(req.start + req.size, total);
        hide Up, Down;
      }
    } else if forall req | Request(req) :: OffsetToReq(RequestBytes(req, total), total) == req {
      forall k: nat | k < 256
        ensures Up(k, total) < Up(k + 1, total)
      {
        var req := Range(k, 1);
        assert Request(req) && OffsetToReq(RequestBytes(req, total), total) == req;
        UpGrows(k, k + 1, total);
        hide Up, Down;
        assert Down(Up(k, total), total) == k && Down(Up(k + 1, total), total) == k + 1;
      }
      UpAtLeast(256, total);
      assert false;
    }
  }

  /** The bytes of a request; its size is never negative. */
  function RequestBytes(req: Range, total: nat): (r: Range)
    requires Request(req)
    ensures 0 <= r.start && 0 <= r.size
  {
    UpGrows(req.start, req.start + req.size, total);
    ReqToOffset(req, total)
  }

  function Least(counts: seq<nat>): (m: nat)
    requires |counts| > 0
    ensures m in counts && forall c | c in counts :: m <= c
  {
    if |counts| == 1 then counts[0]
    else
      var m := Least(counts[1..]);
      assert counts == [counts[0]] + counts[1..];
      if counts[0] < m then counts[0] else m
  }

  function Total(counts: seq<nat>): nat {
    if counts == [] then 0 else counts[0] + Total(counts[1..])
  }

  /** How often a run of blocks was requested already. */
  function Score(requested: seq<nat>, i: nat): nat
    requires i + 64 <= |requested|
  {
    Least(requested[i..i + 64]) + Total(requested[i..i + 64])
  }

  class MetadataPlugin {
    var hasBuffer: bool
    var metadata: seq<Byte>
    var metadataSize: nat
    var metadataProgress: int
    /** One flag for every block, or none at all before the first bytes came. */
    var haveMetadata: seq<bool>
    var requested: seq<nat>
    var validMetadata: bool
    /** The bytes that were copied into the buffer. */
    ghost var copied: map<nat, Byte>

    /** The buffer holds the bytes that were copied. */
    ghost predicate Buffered(total: nat)
      reads `hasBuffer, `metadata, `copied
    {
      (hasBuffer ==> |metadata| >= total) && forall x | x in copied :: x < |metadata| && metadata[x] == copied[x]
    }

    /** Every byte was copied, and is in the buffer. */
    ghost predicate EveryByte(total: nat)
      reads `metadata, `copied
    {
      forall x: nat | x < total :: x in copied && x < |metadata| && metadata[x] == copied[x]
    }

    ghost predicate Valid(total: nat)
      reads this
    {
      && Buffered(total) && (haveMetadata == [] || |haveMetadata| == 256) && (!hasBuffer ==> haveMetadata == [])
      && forall i: nat | i < |haveMetadata| && haveMetadata[i] :: BlockThere(copied.Keys, i, total)
    }

    constructor ()
      ensures forall total: nat :: Valid(total)
      ensures requested == seq(256, _ => 0) && !validMetadata && !hasBuffer && metadataSize == metadataProgress == 0
    {
      hasBuffer, metadata, metadataSize, metadataProgress := false, [], 0, 0;
      haveMetadata, requested, validMetadata := [], seq(256, _ => 0), false;
      copied := map[];
    }

    method Progress(total: nat, received: int)
      requires Valid(total)
      modifies `metadataProgress, `metadataSize
      ensures Valid(total) && metadataSize == total && metadataProgress == old(metadataProgress) + received
    {
      metadataProgress := metadataProgress + received;
      metadataSize := total;
    }

    /** Takes in the bytes of a request. Once every block is there the torrent is asked whether it accepts the
        metadata, and then every byte was copied. `asked` tells whether it was. */
    method ReceivedMetadata(buf: seq<Byte>, offset: nat, total: nat, accepts: bool, ghost req: Range) returns (done: bool, ghost asked: bool)
      requires Valid(total) && total > 0 && Request(req) && RequestBytes(req, total) == Range(offset, |buf|)
      requires hasBuffer ==> metadataSize >= total
      modifies this
      ensures Valid(total)
      ensures validMetadata == old(validMetadata) && (old(validMetadata) ==> !done && !asked && unchanged(this))
      ensures !old(validMetadata) ==>
                && hasBuffer && copied == Written(if old(hasBuffer) then old(copied) else map[], buf, offset)
                && requested == (if asked && accepts then [] else old(requested))
                && metadataProgress == (if asked && !accepts then 0 else old(metadataProgress))
                && metadataSize == if asked && !accepts then 0 else if old(hasBuffer) then old(metadataSize) else total
      ensures asked ==> done == accepts && EveryByte(total)
      ensures !old(validMetadata) ==>
                var range := OffsetToReq(RequestBytes(req, total), total);
                asked == AllFlagged(old(haveMetadata), range) && FlagsAfter(old(haveMetadata), range, haveMetadata, accepts)
      ensures done ==> asked
    {
      hide *;
      asked := false;
      if validMetadata { return false, false; }
      TakeIn(buf, offset, total, req);
      ghost var flags, range := old(haveMetadata), OffsetToReq(Range(offset, |buf|), total);
      if exists i: nat | i < 256 :: !haveMetadata[i] {
        NotAll(flags, range, haveMetadata, accepts);
        return false, false;
      }
      asked := true;
      All(flags, range, haveMetadata);
      EverythingCopied(total);
      if !accepts {
        Forget(offset, |buf|, total, req);
        ForgetFlags(flags, range, haveMetadata);
        return false, true;
      }
      haveMetadata, requested := [], [];
      AcceptFlags(flags, range);
      FlagsGone(total);
      done := true;
    }

    /** Puts the bytes in the buffer, which is made first if need be, and flags their blocks. */
    method TakeIn(buf: seq<Byte>, offset: nat, total: nat, ghost req: Range)
      requires Valid(total) && total > 0 && Request(req) && RequestBytes(req, total) == Range(offset, |buf|)
      requires hasBuffer ==> metadataSize >= total
      modifies `hasBuffer, `metadata, `metadataSize, `copied, `haveMetadata
      ensures Valid(total) && hasBuffer && metadataSize == (if old(hasBuffer) then old(metadataSize) else total)
      ensures copied == Written(if old(hasBuffer) then old(copied) else map[], buf, offset)
      ensures |haveMetadata| == 256
      ensures Marked(old(haveMetadata), OffsetToReq(RequestBytes(req, total), total), haveMetadata)
    {
      hide RequestBytes, Up, Down, Written, Fill;
      BytesInside(req, total);
      if !hasBuffer || metadataSize < total {
        metadata := seq(total, _ => 0);
        hasBuffer, metadataSize := true, total;
        copied := map[];
      }
      ghost var before := copied;
      CopyIn(buf, offset);
      if |haveMetadata| == 0 {
        haveMetadata := seq(256, _ => false);
      }
      ghost var flags := haveMetadata;
      var range := OffsetToReq(Range(offset, |buf|), total);
      RangeCovered(req, total, copied.Keys);
      StillThere(flags, before.Keys, copied.Keys, total);
      haveMetadata := Fill(haveMetadata, range.start, range.start + range.size, true);
    }

    /** The flags up to the end of the last range are cleared when the metadata is refused. */
    method Forget(offset: nat, size: nat, total: nat, ghost req: Range)
      requires Valid(total) && |haveMetadata| == 256 && total > 0 && Request(req) && RequestBytes(req, total) == Range(offset, size)
      modifies `haveMetadata, `metadataProgress, `metadataSize
      ensures Valid(total) && metadataProgress == metadataSize == 0 && |haveMetadata| == 256
      ensures var range := OffsetToReq(RequestBytes(req, total), total);
        forall i: nat | i < 256 :: haveMetadata[i] == (old(haveMetadata)[i] && i >= range.start + range.size)
    {
      hide RequestBytes, Up, Down;
      OffsetIdentity(req, total);
      var range := OffsetToReq(Range(offset, size), total);
      haveMetadata := Fill(haveMetadata, 0, range.start + range.size, false);
      metadataProgress, metadataSize := 0, 0;
    }

    lemma EverythingCopied(total: nat)
      requires Valid(total) && |haveMetadata| == 256 && forall i: nat | i < 256 :: haveMetadata[i]
      ensures EveryByte(total) && Buffered(total)
    {
      AllCovered(copied.Keys, total, haveMetadata);
    }

    lemma FlagsGone(total: nat)
      requires haveMetadata == [] && Buffered(total)
      ensures Valid(total)
    {
    }

    /** Copies bytes into the buffer. */
    method CopyIn(buf: seq<Byte>, offset: nat)
      requires offset + |buf| <= |metadata|
      requires forall x | x in copied :: x < |metadata| && metadata[x] == copied[x]
      modifies `metadata, `copied
      ensures |metadata| == |old(metadata)| && forall x | x in copied :: x < |metadata| && metadata[x] == copied[x]
      ensures copied == Written(old(copied), buf, offset)
      ensures metadata[..offset] == old(metadata)[..offset] && metadata[offset + |buf|..] == old(metadata)[offset + |buf|..]
    {
      for k := 0 to |buf|
        invariant |metadata| == |old(metadata)| && forall x | x in copied :: x < |metadata| && metadata[x] == copied[x]
        invariant copied == Written(old(copied), buf[..k], offset)
        invariant metadata[..offset] == old(metadata)[..offset] && metadata[offset + |buf|..] == old(metadata)[offset + |buf|..]
      {
        WrittenMore(old(copied), buf, offset, k);
        metadata := metadata[offset + k := buf[k]];
        copied := copied[offset + k := buf[k]];
      }
      assert buf[..|buf|] == buf;
    }

    /** A data message, as it comes in whole: it counts as progress first. */
    method OnData(buf: seq<Byte>, offset: nat, total: nat, accepts: bool, ghost req: Range) returns (done: bool, ghost asked: bool)
      requires Valid(total) && total > 0 && Request(req) && RequestBytes(req, total) == Range(offset, |buf|)
      modifies this
      ensures Valid(total)
      ensures validMetadata == old(validMetadata)
      ensures old(validMetadata) ==>
                !done && !asked && copied == old(copied) && haveMetadata == old(haveMetadata) && requested == old(requested)
      ensures !old(validMetadata) ==>
                && hasBuffer && copied == Written(if old(hasBuffer) then old(copied) else map[], buf, offset)
                && requested == (if asked && accepts then [] else old(requested))
                && metadataProgress == (if asked && !accepts then 0 else old(metadataProgress) + |buf|)
                && metadataSize == if asked && !accepts then 0 else total
      ensures asked ==> done == accepts && EveryByte(total)
      ensures !old(validMetadata) ==>
                var range := OffsetToReq(RequestBytes(req, total), total);
                asked == AllFlagged(old(haveMetadata), range) && FlagsAfter(old(haveMetadata), range, haveMetadata, accepts)
      ensures done ==> asked
    {
      hide *;
      Progress(total, |buf|);
      done, asked := ReceivedMetadata(buf, offset, total, accepts, req);
    }

    /** The run of 64 blocks to request next: the first of those requested least. */
    method MetadataRequest() returns (req: Range)
      requires |requested| == 256
      modifies `requested
      ensures Request(req) && req.size == 64
      ensures forall i: nat | i + 64 <= 256 :: Score(old(requested), req.start) <= Score(old(requested), i)
      ensures forall i: nat | i < req.start :: Score(old(requested), req.start) < Score(old(requested), i)
      ensures |requested| == 256 && forall i | 0 <= i < 256 ::
                requested[i] == old(requested)[i] + if req.start <= i < req.start + 64 then 1 else 0
    {
      hide Score;
      var best, least: int := 0, -1;
      for i := 0 to 193
        invariant best + 64 <= 256 && (i == 0 ==> least == -1 && best == 0) && (i > 0 ==> least == Score(requested, best))
        invariant forall j: nat | j < i :: Score(requested, best) <= Score(requested, j)
        invariant forall j: nat | j < best :: Score(requested, best) < Score(requested, j)
        invariant best < i || i == 0
      {
        var score := Score(requested, i);
        if least == -1 || least > score {
          best, least := i, score;
        }
      }
      req := Range(best, 64);
      for i := best to best + 64
        invariant |requested| == 256 && forall k | 0 <= k < 256 ::
                    requested[k] == old(requested)[k] + if best <= k < i then 1 else 0
      {
        requested := requested[i := requested[i] + 1];
      }
    }

    /** Takes back a request. */
    method CancelMetadataRequest(req: Range)
      requires Request(req) && |requested| == 256
      modifies `requested
      ensures |requested| == 256 && forall i | 0 <= i < 256 ::
                requested[i] == old(requested)[i] - if req.start <= i < req.start + req.size && old(requested)[i] > 0 then 1 else 0
    {
      for i := req.start to req.start + req.size
        invariant |requested| == 256 && forall k | 0 <= k < 256 ::
                    requested[k] == old(requested)[k] - if req.start <= k < i && old(requested)[k] > 0 then 1 else 0
      {
        if requested[i] > 0 {
          requested := requested[i := requested[i] - 1];
        }
      }
    }
  }

  /** The bytes known, with those of buf put in at an offset. */
  function Written(copied: map<nat, Byte>, buf: seq<Byte>, offset: nat): (r: map<nat, Byte>)
    ensures forall x: nat :: x in r <==> x in copied || offset <= x < offset + |buf|
    ensures forall x | x in r :: r[x] == if offset <= x < offset + |buf| then buf[x - offset] else copied[x]
  {
    if buf == [] then copied
    else
      var n := |buf| - 1;
      Written(copied, buf[..n], offset)[offset + n := buf[n]]
  }

  lemma WrittenMore(copied: map<nat, Byte>, buf: seq<Byte>, offset: nat, k: nat)
    requires k < |buf|
    ensures Written(copied, buf[..k + 1], offset) == Written(copied, buf[..k], offset)[offset + k := buf[k]]
  {
    assert buf[..k + 1][..k] == buf[..k];
  }

  /** Block i is there once the blocks of a range are. */
  predicate Flagged(flags: seq<bool>, range: Range, i: nat) {
    range.start <= i < range.start + range.size || (i < |flags| && flags[i])
  }

  /** The new flags are the old ones and those of a range. */
  ghost predicate Marked(flags: seq<bool>, range: Range, flags': seq<bool>) {
    |flags'| == 256 && forall i: nat | i < 256 :: flags'[i] == Flagged(flags, range, i)
  }

  predicate AllFlagged(flags: seq<bool>, range: Range) {
    forall i: nat | i < 256 :: Flagged(flags, range, i)
  }

  /** The flags after a range came in: set until all are, and then gone, or cleared up to the end of the range if the
      metadata is refused. */
  ghost predicate FlagsAfter(flags: seq<bool>, range: Range, flags': seq<bool>, accepts: bool) {
    if !AllFlagged(flags, range) then Marked(flags, range, flags')
    else if accepts then flags' == []
    else |flags'| == 256 && forall i: nat | i < 256 :: flags'[i] == (i >= range.start + range.size)
  }

  lemma NotAll(flags: seq<bool>, range: Range, flags': seq<bool>, accepts: bool)
    requires Marked(flags, range, flags') && exists i: nat | i < 256 && i < |flags'| :: !flags'[i]
    ensures !AllFlagged(flags, range) && FlagsAfter(flags, range, flags', accepts)
  {
  }

  lemma All(flags: seq<bool>, range: Range, flags': seq<bool>)
    requires Marked(flags, range, flags') && forall i: nat | i < 256 && i < |flags'| :: flags'[i]
    ensures AllFlagged(flags, range)
  {
    assert forall i: nat | i < 256 :: flags'[i];
  }

  lemma ForgetFlags(flags: seq<bool>, range: Range, flags': seq<bool>)
    requires AllFlagged(flags, range) && |flags'| == 256
    requires forall i: nat | i < 256 :: flags'[i] == (i >= range.start + range.size)
    ensures FlagsAfter(flags, range, flags', false)
  {
  }

  lemma AcceptFlags(flags: seq<bool>, range: Range)
    requires AllFlagged(flags, range)
    ensures FlagsAfter(flags, range, [], true)
  {
  }

  /** Blocks that are there stay there. */
  lemma StillThere(flags: seq<bool>, bytes: set<nat>, bytes': set<nat>, total: nat)
    requires bytes <= bytes' && forall i: nat | i < |flags| && flags[i] :: BlockThere(bytes, i, total)
    ensures forall i: nat | i < |flags| && flags[i] :: BlockThere(bytes', i, total)
  {
  }

  /** The bytes of blocks from..end-1 are all there. */
  ghost predicate Covered(bytes: set<nat>, from: nat, end: nat, total: nat) {
    forall x: nat | Up(from, total) <= x < Up(end, total) :: x in bytes
  }

  ghost predicate BlockThere(bytes: set<nat>, i: nat, total: nat) {
    Covered(bytes, i, i + 1, total)
  }

  function Fill(flags: seq<bool>, from: int, end: int, value: bool): (r: seq<bool>)
    ensures |r| == |flags| && forall i | 0 <= i < |flags| :: r[i] == if from <= i < end then value else flags[i]
  {
    seq(|flags|, i requires 0 <= i < |flags| => if from <= i < end then value else flags[i])
  }

  lemma BytesInside(req: Range, total: nat)
    requires Request(req) && total > 0
    ensures RequestBytes(req, total).start + RequestBytes(req, total).size <= total
  {
    UpGrows(req.start + req.size, 256, total);
    assert Up(256, total) == total;
  }

  /** Each block that a request's bytes flag has all its bytes among them. */
  lemma RangeCovered(req: Range, total: nat, bytes: set<nat>)
    requires Request(req) && total > 0
    requires var o := RequestBytes(req, total); forall x: nat | o.start <= x < o.start + o.size :: x in bytes
    ensures var r := OffsetToReq(RequestBytes(req, total), total);
      0 <= r.start && 0 <= r.size && forall i: nat | r.start <= i < r.start + r.size :: BlockThere(bytes, i, total)
  {
    OffsetIdentity(req, total);
    var o := RequestBytes(req, total);
    var r := OffsetToReq(o, total);
    forall i: nat | r.start <= i < r.start + r.size
      ensures BlockThere(bytes, i, total)
    {
      UpGrows(r.start, i, total);
      UpGrows(i + 1, r.start + r.size, total);
      hide Up, Down;
      assert Covered(bytes, i, i + 1, total);
    }
  }

  lemma {:induction false} CoveredUpTo(bytes: set<nat>, n: nat, total: nat)
    requires forall i: nat | i < n :: BlockThere(bytes, i, total)
    ensures Covered(bytes, 0, n, total)
  {
    if n > 0 {
      CoveredUpTo(bytes, n - 1, total);
      hide Up;
      assert BlockThere(bytes, n - 1, total);
    }
  }

  /** With all blocks there, so is every byte. */
  lemma AllCovered(bytes: set<nat>, total: nat, flags: seq<bool>)
    requires |flags| == 256 && (forall i | 0 <= i < 256 :: flags[i])
    requires forall i: nat | i < |flags| && flags[i] :: BlockThere(bytes, i, total)
    ensures forall x: nat | x < total :: x in bytes
  {
    hide Covered, BlockThere;
    forall i: nat | i < 256 ensures BlockThere(bytes, i, total) { assert flags[i]; }
    CoveredUpTo(bytes, 256, total);
    Ends(total);
    CoveredAll(bytes, total);
  }

  lemma Ends(total: nat)
    ensures Up(0, total) == 0 && Up(256, total) == total
  {
  }

  lemma CoveredAll(bytes: set<nat>, total: nat)
    requires Covered(bytes, 0, 256, total)
    ensures forall x: nat | x < total :: x in bytes
  {
    Ends(total);
  }
}
