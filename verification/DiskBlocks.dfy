/** A cached piece cut into 16 KiB blocks, against the bytes of the piece on disk. */
module DiskBlocks {
  import opened Common

  /** The block size every session uses; the scan for contiguous blocks has it built in. */
  const BLOCK_SIZE: nat := 0x4000

  /** One block slot of a cached piece. A callback of 0 stands for none. */
  datatype Block = Block(buf: Option<seq<Byte>>, callback: nat) {
    predicate Cached() {
      buf.Some?
    }
  }

  const EMPTY_BLOCK := Block(None, 0)

  function NumBlocks(size: nat): nat {
    (size + BLOCK_SIZE - 1) / BLOCK_SIZE
  }

  /** The length of block i: the last one may be short. */
  function BlockLength(size: nat, i: nat): int {
    if size - i * BLOCK_SIZE < BLOCK_SIZE then size - i * BLOCK_SIZE else BLOCK_SIZE
  }

  lemma BlockFits(size: nat, i: nat)
    requires i < NumBlocks(size)
    ensures 0 < BlockLength(size, i) && i * BLOCK_SIZE + BlockLength(size, i) <= size
    ensures i + 1 < NumBlocks(size) ==> BlockLength(size, i) == BLOCK_SIZE
    ensures i * BLOCK_SIZE + BlockLength(size, i) == if (i + 1) * BLOCK_SIZE < size then (i + 1) * BLOCK_SIZE else size
  {
  }

  /** Block i of the bytes of a piece. */
  function Slice(bytes: seq<Byte>, i: nat): (r: seq<Byte>)
    requires i < NumBlocks(|bytes|)
    ensures |r| == BlockLength(|bytes|, i)
  {
    BlockFits(|bytes|, i);
    bytes[i * BLOCK_SIZE..i * BLOCK_SIZE + BlockLength(|bytes|, i)]
  }

  /** Buffers have the length of their block. */
  ghost predicate Buffers(blocks: seq<Block>, size: nat) {
    && |blocks| == NumBlocks(size)
    && forall i | 0 <= i < |blocks| && blocks[i].Cached() :: |blocks[i].buf.value| == BlockLength(size, i)
  }

  /** What a reader of block i should get: the cached buffer if there is one, else the disk. */
  function Seen(blocks: seq<Block>, disk: seq<Byte>, i: nat): seq<Byte>
    requires |blocks| == NumBlocks(|disk|) && i < |blocks|
  {
    if blocks[i].Cached() then blocks[i].buf.value else Slice(disk, i)
  }

  /** The same overlay of dirty blocks and disk, block by block. */
  ghost predicate SameOverlay(blocks: seq<Block>, disk: seq<Byte>, blocks': seq<Block>, disk': seq<Byte>) {
    && |disk'| == |disk| && |blocks| == |blocks'| == NumBlocks(|disk|)
    && forall i | 0 <= i < |blocks| :: Seen(blocks', disk', i) == Seen(blocks, disk, i)
  }

  /** The number of cached blocks among from..to-1. */
  function CountCached(blocks: seq<Block>, from: nat, end: nat): (c: nat)
    requires from <= end <= |blocks|
    ensures c <= end - from
  {
    if from == end then 0 else CountCached(blocks, from, end - 1) + if blocks[end - 1].Cached() then 1 else 0
  }

  /** Whether from..end-1 are all cached. */
  predicate AllCached(blocks: seq<Block>, from: nat, end: nat)
    requires end <= |blocks|
  {
    forall i | from <= i < end :: blocks[i].Cached()
  }

  /** The bytes of a run of cached blocks, end to end. */
  ghost function RunData(blocks: seq<Block>, from: nat, end: nat): seq<Byte>
    requires from <= end <= |blocks| && AllCached(blocks, from, end)
  {
    if from == end then [] else RunData(blocks, from, end - 1) + blocks[end - 1].buf.value
  }

  /** A run starts at its first block's offset and reaches to its last block's end. */
  lemma {:induction false} RunLength(blocks: seq<Block>, size: nat, from: nat, end: nat)
    requires Buffers(blocks, size) && from < end <= |blocks| && AllCached(blocks, from, end)
    ensures from * BLOCK_SIZE + |RunData(blocks, from, end)| == if end * BLOCK_SIZE < size then end * BLOCK_SIZE else size
    ensures end < |blocks| ==> |RunData(blocks, from, end)| == (end - from) * BLOCK_SIZE
  {
    BlockFits(size, end - 1);
    if from < end - 1 {
      RunLength(blocks, size, from, end - 1);
    } else {
      assert RunData(blocks, from, from) == [];
    }
  }

  /** Inside a run every block sits at its distance from the first. */
  lemma {:induction false} RunSlice(blocks: seq<Block>, size: nat, from: nat, end: nat, i: nat)
    requires Buffers(blocks, size) && from <= i < end <= |blocks| && AllCached(blocks, from, end)
    ensures (i - from) * BLOCK_SIZE + BlockLength(size, i) <= |RunData(blocks, from, end)|
    ensures RunData(blocks, from, end)[(i - from) * BLOCK_SIZE..(i - from) * BLOCK_SIZE + BlockLength(size, i)]
            == blocks[i].buf.value
  {
    RunMore(blocks, size, from, end - 1);
    BlockFits(size, i);
    if i == end - 1 {
      hide RunData, Buffers, AllCached;
      JoinedSlices(RunData(blocks, from, i), blocks[i].buf.value, 0, 0);
    } else {
      RunSlice(blocks, size, from, end - 1, i);
      hide RunData, Buffers, AllCached;
      JoinedSlices(RunData(blocks, from, end - 1), blocks[end - 1].buf.value, (i - from) * BLOCK_SIZE,
                   (i - from) * BLOCK_SIZE + BlockLength(size, i));
    }
  }

  /** A run and the block after it. */
  lemma RunMore(blocks: seq<Block>, size: nat, from: nat, end: nat)
    requires Buffers(blocks, size) && from <= end < |blocks| && AllCached(blocks, from, end + 1)
    ensures RunData(blocks, from, end + 1) == RunData(blocks, from, end) + blocks[end].buf.value
    ensures |blocks[end].buf.value| == BlockLength(size, end) && |RunData(blocks, from, end)| == (end - from) * BLOCK_SIZE
  {
    assert blocks[end].Cached();
    if from < end { RunLength(blocks, size, from, end); }
  }

  lemma JoinedSlices(a: seq<Byte>, b: seq<Byte>, from: nat, end: nat)
    requires from <= end <= |a|
    ensures (a + b)[from..end] == a[from..end] && (a + b)[|a|..|a| + |b|] == b
  {
  }

  /** A positioned write. */
  function WriteAt(disk: seq<Byte>, offset: nat, data: seq<Byte>): (r: seq<Byte>)
    requires offset + |data| <= |disk|
    ensures |r| == |disk|
  {
    disk[..offset] + data + disk[offset + |data|..]
  }

  lemma WriteAtInside(disk: seq<Byte>, offset: nat, data: seq<Byte>, a: nat, b: nat)
    requires offset + |data| <= |disk| && offset <= a <= b <= offset + |data|
    ensures WriteAt(disk, offset, data)[a..b] == data[a - offset..b - offset]
  {
  }

  lemma WriteAtOutside(disk: seq<Byte>, offset: nat, data: seq<Byte>, a: nat, b: nat)
    requires offset + |data| <= |disk| && a <= b <= |disk| && (b <= offset || offset + |data| <= a)
    ensures WriteAt(disk, offset, data)[a..b] == disk[a..b]
  {
  }

  lemma WriteInside(blocks: seq<Block>, disk: seq<Byte>, from: nat, end: nat, i: nat)
    requires Buffers(blocks, |disk|) && from <= i < end <= |blocks| && AllCached(blocks, from, end)
    ensures from * BLOCK_SIZE + |RunData(blocks, from, end)| <= |disk|
    ensures Slice(WriteAt(disk, from * BLOCK_SIZE, RunData(blocks, from, end)), i) == blocks[i].buf.value
  {
    RunLength(blocks, |disk|, from, end);
    RunSlice(blocks, |disk|, from, end, i);
    BlockFits(|disk|, i);
    var data := RunData(blocks, from, end);
    hide RunData, Buffers, AllCached, WriteAt;
    WriteAtInside(disk, from * BLOCK_SIZE, data, i * BLOCK_SIZE, i * BLOCK_SIZE + BlockLength(|disk|, i));
  }

  lemma WriteOutside(blocks: seq<Block>, disk: seq<Byte>, from: nat, end: nat, i: nat)
    requires Buffers(blocks, |disk|) && from < end <= |blocks| && AllCached(blocks, from, end)
    requires i < |blocks| && (i < from || end <= i)
    ensures from * BLOCK_SIZE + |RunData(blocks, from, end)| <= |disk|
    ensures Slice(WriteAt(disk, from * BLOCK_SIZE, RunData(blocks, from, end)), i) == Slice(disk, i)
  {
    RunLength(blocks, |disk|, from, end);
    BlockFits(|disk|, i);
    hide RunData, Buffers, AllCached, WriteAt;
    WriteAtOutside(disk, from * BLOCK_SIZE, RunData(blocks, from, end), i * BLOCK_SIZE, i * BLOCK_SIZE + BlockLength(|disk|, i));
  }

  /** Writing a run at its offset puts exactly its blocks on disk. */
  lemma WriteRun(blocks: seq<Block>, disk: seq<Byte>, from: nat, end: nat)
    requires Buffers(blocks, |disk|) && from < end <= |blocks| && AllCached(blocks, from, end)
    ensures from * BLOCK_SIZE + |RunData(blocks, from, end)| <= |disk|
    ensures forall i | 0 <= i < |blocks| ::
              Slice(WriteAt(disk, from * BLOCK_SIZE, RunData(blocks, from, end)), i)
              == if from <= i < end then blocks[i].buf.value else Slice(disk, i)
  {
    RunLength(blocks, |disk|, from, end);
    hide RunData, Slice, WriteAt;
    forall i | 0 <= i < |blocks|
      ensures from * BLOCK_SIZE + |RunData(blocks, from, end)| <= |disk|
      ensures Slice(WriteAt(disk, from * BLOCK_SIZE, RunData(blocks, from, end)), i)
              == if from <= i < end then blocks[i].buf.value else Slice(disk, i)
    {
      if from <= i < end {
        WriteInside(blocks, disk, from, end, i);
      } else {
        WriteOutside(blocks, disk, from, end, i);
      }
    }
  }

  /** One positioned write of a piece. */
  datatype WriteOp = WriteOp(id: nat, offset: nat, data: seq<Byte>)

  /** The end of the run of cached blocks that starts at `from`. */
  function RunEnd(blocks: seq<Block>, from: nat, end: nat): (t: nat)
    requires from <= end <= |blocks|
    ensures from <= t <= end && AllCached(blocks, from, t) && (t < end ==> !blocks[t].Cached())
    decreases end - from
  {
    if from == end || !blocks[from].Cached() then from else RunEnd(blocks, from + 1, end)
  }

  /** The writes that flush a range: one for every maximal run. */
  ghost function Writes(blocks: seq<Block>, id: nat, from: nat, end: nat): seq<WriteOp>
    requires from <= end <= |blocks|
    decreases end - from
  {
    if from == end then []
    else if !blocks[from].Cached() then Writes(blocks, id, from + 1, end)
    else
      var t := RunEnd(blocks, from, end);
      [WriteOp(id, from * BLOCK_SIZE, RunData(blocks, from, t))] + Writes(blocks, id, t, end)
  }

  /** The write starts at or before block i and reaches into it. */
  predicate Covers(w: WriteOp, i: nat) {
    w.offset <= i * BLOCK_SIZE < w.offset + |w.data|
  }

  function CountCovers(writes: seq<WriteOp>, i: nat): nat {
    if writes == [] then 0 else (if Covers(writes[0], i) then 1 else 0) + CountCovers(writes[1..], i)
  }

  /** Every cached block of the range is written exactly once, at its own offset, and nothing else is. */
  lemma {:induction false} WrittenOnce(blocks: seq<Block>, size: nat, id: nat, from: nat, end: nat, i: nat)
    requires Buffers(blocks, size) && from <= end <= |blocks| && i < |blocks|
    ensures CountCovers(Writes(blocks, id, from, end), i) == if from <= i < end && blocks[i].Cached() then 1 else 0
    ensures forall w | w in Writes(blocks, id, from, end) && Covers(w, i) ::
              && blocks[i].Cached() && w.id == id && (i * BLOCK_SIZE - w.offset) + BlockLength(size, i) <= |w.data|
              && w.data[i * BLOCK_SIZE - w.offset..i * BLOCK_SIZE - w.offset + BlockLength(size, i)] == blocks[i].buf.value
    decreases end - from
  {
    if from < end {
      if !blocks[from].Cached() {
        WrittenOnce(blocks, size, id, from + 1, end, i);
      } else {
        var t := RunEnd(blocks, from, end);
        RunLength(blocks, size, from, t);
        WrittenOnce(blocks, size, id, t, end, i);
        BlockFits(size, i);
        var w := WriteOp(id, from * BLOCK_SIZE, RunData(blocks, from, t));
        assert Writes(blocks, id, from, end) == [w] + Writes(blocks, id, t, end);
        if from <= i < t {
          RunSlice(blocks, size, from, t, i);
        }
      }
    }
  }

  /** What is posted for one flushed block. */
  datatype Completion = Completion(callback: nat, id: nat, offset: nat, size: int, result: int)

  /** The completions of a flushed range, in block order: each cached block that has a callback gets its length,
      or -1 on error. */
  ghost function Posted(blocks: seq<Block>, size: nat, id: nat, from: nat, end: nat, failed: bool): seq<Completion>
    requires from <= end <= |blocks|
  {
    if from == end then []
    else
      Posted(blocks, size, id, from, end - 1, failed)
      + if blocks[end - 1].Cached() && blocks[end - 1].callback != 0
        then [Completion(blocks[end - 1].callback, id, (end - 1) * BLOCK_SIZE, BlockLength(size, end - 1),
                         if failed then -1 else BlockLength(size, end - 1))]
        else []
  }

  /** The blocks after the cached ones of a range were let go. */
  ghost predicate Emptied(blocks: seq<Block>, blocks': seq<Block>, from: nat, end: nat) {
    && |blocks'| == |blocks|
    && forall i | 0 <= i < |blocks| ::
         blocks'[i] == if from <= i < end && blocks[i].Cached() then EMPTY_BLOCK else blocks[i]
  }

  /** The disk after every cached block of a range was written. */
  ghost predicate Flushed(blocks: seq<Block>, disk: seq<Byte>, disk': seq<Byte>, from: nat, end: nat) {
    && |disk'| == |disk| && |blocks| == NumBlocks(|disk|)
    && forall i | 0 <= i < |blocks| ::
         Slice(disk', i) == if from <= i < end && blocks[i].Cached() then blocks[i].buf.value else Slice(disk, i)
  }

  /** Writing the dirty blocks of a range and letting them go shows every reader what it saw before. */
  lemma FlushKeepsOverlay(blocks: seq<Block>, disk: seq<Byte>, blocks': seq<Block>, disk': seq<Byte>, from: nat, end: nat)
    requires Flushed(blocks, disk, disk', from, end) && Emptied(blocks, blocks', from, end)
    ensures SameOverlay(blocks, disk, blocks', disk')
  {
  }

  /** The longest run of cached blocks among the first n, and the one that ends at n. */
  function RunBefore(blocks: seq<Block>, n: nat): (r: nat)
    requires n <= |blocks|
    ensures r <= n && AllCached(blocks, n - r, n) && (r < n ==> !blocks[n - r - 1].Cached())
  {
    if n == 0 || !blocks[n - 1].Cached() then 0 else RunBefore(blocks, n - 1) + 1
  }

  function LongestRun(blocks: seq<Block>, n: nat): (r: nat)
    requires n <= |blocks|
    ensures r <= n
  {
    if n == 0 then 0
    else if RunBefore(blocks, n) > LongestRun(blocks, n - 1) then RunBefore(blocks, n) else LongestRun(blocks, n - 1)
  }

  /** It is the longest: no run among the first n is longer. */
  lemma {:induction false} LongestRunBounds(blocks: seq<Block>, n: nat, from: nat, end: nat)
    requires from <= end <= n <= |blocks| && AllCached(blocks, from, end)
    ensures end - from <= LongestRun(blocks, n)
  {
    if end < n {
      LongestRunBounds(blocks, n - 1, from, end);
    } else if from < end {
      var r := RunBefore(blocks, n);
      assert r >= n - from;
    }
  }

  /** And there is a run of that length. */
  lemma {:induction false} LongestRunExists(blocks: seq<Block>, n: nat) returns (from: nat)
    requires n <= |blocks|
    ensures from + LongestRun(blocks, n) <= n && AllCached(blocks, from, from + LongestRun(blocks, n))
  {
    if n == 0 {
      from := 0;
    } else if LongestRun(blocks, n) == RunBefore(blocks, n) {
      from := n - RunBefore(blocks, n);
    } else {
      from := LongestRunExists(blocks, n - 1);
    }
  }

  lemma {:induction false} CountSplits(blocks: seq<Block>, a: nat, b: nat, c: nat)
    requires a <= b <= c <= |blocks|
    ensures CountCached(blocks, a, c) == CountCached(blocks, a, b) + CountCached(blocks, b, c)
  {
    if b < c { CountSplits(blocks, a, b, c - 1); }
  }

  lemma {:induction false} CountSame(a: seq<Block>, b: seq<Block>, from: nat, end: nat)
    requires from <= end <= |a| == |b| && forall i | from <= i < end :: a[i].Cached() == b[i].Cached()
    ensures CountCached(a, from, end) == CountCached(b, from, end)
  {
    if from < end { CountSame(a, b, from, end - 1); }
  }

  lemma {:induction false} CountNone(a: seq<Block>, from: nat, end: nat)
    requires from <= end <= |a| && forall i | from <= i < end :: !a[i].Cached()
    ensures CountCached(a, from, end) == 0
  {
    if from < end { CountNone(a, from, end - 1); }
  }

  /** Emptying a range lowers the number of cached blocks by those in the range. */
  lemma EmptiedCount(blocks: seq<Block>, blocks': seq<Block>, from: nat, end: nat)
    requires Emptied(blocks, blocks', from, end) && from <= end <= |blocks|
    ensures CountCached(blocks', 0, |blocks|) == CountCached(blocks, 0, |blocks|) - CountCached(blocks, from, end)
  {
    CountSplits(blocks, 0, from, |blocks|);
    CountSplits(blocks, from, end, |blocks|);
    CountSplits(blocks', 0, from, |blocks|);
    CountSplits(blocks', from, end, |blocks|);
    CountSame(blocks, blocks', 0, from);
    CountSame(blocks, blocks', end, |blocks|);
    CountNone(blocks', from, end);
  }

  lemma FlushedNone(blocks: seq<Block>, disk: seq<Byte>, start: nat)
    requires |blocks| == NumBlocks(|disk|)
    ensures Flushed(blocks, disk, disk, start, start)
  {
  }

  lemma FlushedSkip(blocks: seq<Block>, disk: seq<Byte>, disk': seq<Byte>, start: nat, i: nat)
    requires i < |blocks| && blocks[i].buf.None?
    ensures Flushed(blocks, disk, disk', start, i) ==> Flushed(blocks, disk, disk', start, i + 1)
  {
  }

  lemma FlushedMore(blocks: seq<Block>, disk: seq<Byte>, disk': seq<Byte>, start: nat, run: nat, end: nat)
    requires Buffers(blocks, |disk|) && |disk'| == |disk|
    requires start <= run < end <= |blocks| && AllCached(blocks, run, end)
    ensures run * BLOCK_SIZE + |RunData(blocks, run, end)| <= |disk'|
    ensures Flushed(blocks, disk, disk', start, run) ==>
              Flushed(blocks, disk, WriteAt(disk', run * BLOCK_SIZE, RunData(blocks, run, end)), start, end)
  {
    hide RunData, Slice, WriteAt;
    WriteRun(blocks, disk', run, end);
  }

  lemma WritesSkip(blocks: seq<Block>, id: nat, i: nat, end: nat)
    requires i < end <= |blocks| && blocks[i].buf.None?
    ensures Writes(blocks, id, i, end) == Writes(blocks, id, i + 1, end)
  {
  }

  lemma {:induction false} RunEndIs(blocks: seq<Block>, from: nat, t: nat, end: nat)
    requires from <= t <= end <= |blocks| && AllCached(blocks, from, t) && (t == end || !blocks[t].Cached())
    ensures RunEnd(blocks, from, end) == t
    decreases t - from
  {
    if from < t { RunEndIs(blocks, from + 1, t, end); }
  }

  lemma WritesRun(blocks: seq<Block>, id: nat, run: nat, t: nat, end: nat)
    requires run < t <= end <= |blocks| && AllCached(blocks, run, t) && (t == end || !blocks[t].Cached())
    ensures Writes(blocks, id, run, end) ==
            [WriteOp(id, run * BLOCK_SIZE, RunData(blocks, run, t))] + Writes(blocks, id, t, end)
  {
    RunEndIs(blocks, run, t, end);
  }

  lemma EmptiedBuffers(blocks: seq<Block>, blocks': seq<Block>, from: nat, end: nat, size: nat)
    requires Emptied(blocks, blocks', from, end) && Buffers(blocks, size)
    ensures Buffers(blocks', size) && |blocks'| == |blocks|
  {
  }

  /** A range without cached blocks is left as it was. */
  lemma {:induction false} EmptiedNothing(blocks: seq<Block>, blocks': seq<Block>, from: nat, end: nat)
    requires Emptied(blocks, blocks', from, end) && from <= end <= |blocks| && CountCached(blocks, from, end) == 0
    ensures blocks' == blocks
  {
    NoneCached(blocks, from, end);
  }

  lemma {:induction false} NoneCached(blocks: seq<Block>, from: nat, end: nat)
    requires from <= end <= |blocks| && CountCached(blocks, from, end) == 0
    ensures forall i | from <= i < end :: !blocks[i].Cached()
  {
    if from < end { NoneCached(blocks, from, end - 1); }
  }
}
