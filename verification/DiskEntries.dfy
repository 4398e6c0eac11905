/** The entries of the write-back cache: what flushing a range of one makes of it. */
module DiskEntries {
  import opened Common
  import opened DiskBlocks

  /** A cached piece of a torrent. `id` stands for the storage and piece index that identify it. */
  datatype Entry = Entry(id: nat, blocks: seq<Block>, numBlocks: int, numContiguous: int, nextToHash: nat)

  function Flatten(iov: seq<seq<Byte>>): seq<Byte> {
    if iov == [] then [] else Flatten(iov[..|iov| - 1]) + iov[|iov| - 1]
  }

  /** The run from..end-1 collected for one write, either as a list of buffers or copied into one. */
  ghost predicate Gathered(blocks: seq<Block>, size: nat, coalesce: bool, iov: seq<seq<Byte>>, copy: seq<Byte>,
                           offset: int, total: int, from: nat, end: nat) {
    && from <= end <= |blocks| && AllCached(blocks, from, end) && |copy| == size
    && 0 <= total == |RunData(blocks, from, end)| <= size
    && (if coalesce then offset == (end - from) * BLOCK_SIZE && copy[..total] == RunData(blocks, from, end)
        else Flatten(iov) == RunData(blocks, from, end))
  }

  lemma GatherNone(blocks: seq<Block>, size: nat, coalesce: bool, copy: seq<Byte>, from: nat)
    requires from <= |blocks| && |copy| == size
    ensures Gathered(blocks, size, coalesce, [], copy, 0, 0, from, from)
  {
    assert copy[..0] == [];
  }

  /** Adding the next cached block to the run. */
  lemma GatherMore(blocks: seq<Block>, size: nat, coalesce: bool, iov: seq<seq<Byte>>, copy: seq<Byte>,
                   offset: int, total: int, from: nat, end: nat)
    requires Gathered(blocks, size, coalesce, iov, copy, offset, total, from, end) && Buffers(blocks, size)
    requires end < |blocks| && blocks[end].Cached()
    ensures 0 <= total && total + BlockLength(size, end) <= size && |blocks[end].buf.value| == BlockLength(size, end) > 0
    ensures !coalesce ==> Gathered(blocks, size, coalesce, iov + [blocks[end].buf.value], copy, offset,
                                   total + BlockLength(size, end), from, end + 1)
    ensures coalesce ==> 0 <= offset == total && offset + BlockLength(size, end) <= size
    ensures coalesce ==> Gathered(blocks, size, coalesce, iov, WriteAt(copy, offset, blocks[end].buf.value),
                                  offset + BLOCK_SIZE, total + BlockLength(size, end), from, end + 1)
  {
    BlockFits(size, end);
    if from < end { RunLength(blocks, size, from, end); }
    RunLength(blocks, size, from, end + 1);
    assert (iov + [blocks[end].buf.value])[..|iov|] == iov;
    if coalesce {
      var copy' := WriteAt(copy, offset, blocks[end].buf.value);
      assert copy'[..total + BlockLength(size, end)] == copy[..total] + blocks[end].buf.value;
    }
  }

  /** Where the hashing position moves when blocks from..end-1 are flushed in order. */
  function NextToHash(blocks: seq<Block>, next: nat, from: nat, end: nat): (n: nat)
    requires from <= end <= |blocks|
    ensures next <= n && (next <= |blocks| ==> n <= |blocks|)
  {
    if from == end then next
    else
      var n := NextToHash(blocks, next, from, end - 1);
      if blocks[end - 1].Cached() && end - 1 == n then n + 1 else n
  }

  /** It passes over exactly the flushed blocks that follow it without a gap. */
  lemma {:induction false} NextToHashIs(blocks: seq<Block>, next: nat, from: nat, end: nat)
    requires from <= end <= |blocks|
    ensures NextToHash(blocks, next, from, end) == if from <= next <= end then RunEnd(blocks, next, end) else next
  {
    if from < end {
      NextToHashIs(blocks, next, from, end - 1);
      if from <= next <= end - 1 {
        RunEndGrows(blocks, next, end - 1);
      }
    }
  }

  lemma {:induction false} RunEndGrows(blocks: seq<Block>, from: nat, end: nat)
    requires from <= end < |blocks|
    ensures RunEnd(blocks, from, end + 1) ==
            if RunEnd(blocks, from, end) == end && blocks[end].Cached() then end + 1 else RunEnd(blocks, from, end)
    decreases end - from
  {
    if from < end && blocks[from].Cached() {
      RunEndGrows(blocks, from + 1, end);
    }
  }

  /** A run without gaps is flushed by one write. */
  lemma RunIsOneWrite(blocks: seq<Block>, id: nat, from: nat, end: nat)
    requires from < end <= |blocks| && AllCached(blocks, from, end)
    ensures Writes(blocks, id, from, end) == [WriteOp(id, from * BLOCK_SIZE, RunData(blocks, from, end))]
  {
    WritesRun(blocks, id, from, end, end);
    assert Writes(blocks, id, end, end) == [];
  }

  lemma {:induction false} RunCount(blocks: seq<Block>, from: nat, end: nat)
    requires from <= end <= |blocks| && AllCached(blocks, from, end)
    ensures CountCached(blocks, from, end) == end - from
  {
    if from < end { RunCount(blocks, from, end - 1); }
  }

  lemma FlushCount(e: Entry, d: seq<Byte>, e': Entry, d': seq<Byte>, start: nat, end: nat, ret: nat, failed: bool)
    requires FlushOf(e, d, e', d', start, end, ret, failed) && start <= end <= |e.blocks|
    ensures ret == CountCached(e.blocks, start, end)
  {
  }

  /** An entry describes its blocks, and the blocks fit the piece. */
  ghost predicate EntryOk(e: Entry, size: nat) {
    && 0 < size && Buffers(e.blocks, size)
    && e.numBlocks == CountCached(e.blocks, 0, |e.blocks|)
    && e.numContiguous == LongestRun(e.blocks, |e.blocks|)
    && e.nextToHash <= |e.blocks|
  }

  lemma EntryBlocks(e: Entry, size: nat)
    requires EntryOk(e, size)
    ensures |e.blocks| == NumBlocks(size)
  {
  }

  /** The part of a range that exists. */
  function Limit(e: Entry, end: nat): (r: nat)
    ensures r <= |e.blocks|
  {
    if end < |e.blocks| then end else |e.blocks|
  }

  function First(e: Entry, start: nat, end: nat): (r: nat)
    ensures r <= Limit(e, end)
  {
    if start < Limit(e, end) then start else Limit(e, end)
  }

  /** What flushing a range makes of an entry and the bytes on disk. Without an error a reader sees no difference. */
  ghost predicate FlushOf(e: Entry, d: seq<Byte>, e': Entry, d': seq<Byte>, start: nat, end: nat, ret: nat, failed: bool) {
    && |d'| == |d| && EntryOk(e', |d|) && e'.id == e.id
    && Emptied(e.blocks, e'.blocks, First(e, start, end), Limit(e, end))
    && ret == CountCached(e.blocks, First(e, start, end), Limit(e, end))
    && e'.numBlocks == e.numBlocks - ret
    && e'.nextToHash == NextToHash(e.blocks, e.nextToHash, First(e, start, end), Limit(e, end))
    && (!failed ==> Flushed(e.blocks, d, d', First(e, start, end), Limit(e, end)) && SameOverlay(e.blocks, d, e'.blocks, d'))
  }

  lemma WritesNone(blocks: seq<Block>, id: nat, end: nat)
    requires end <= |blocks|
    ensures Writes(blocks, id, end, end) == []
  {
  }

  /** The bookkeeping after blocks start..i-1 were taken out of the count. */
  ghost predicate Counted(p: Entry, p': Entry, start: nat, i: nat, removed: int, written: int) {
    && start <= i <= |p.blocks|
    && removed == written == CountCached(p.blocks, start, i)
    && p' == p.(numBlocks := p.numBlocks - removed, nextToHash := NextToHash(p.blocks, p.nextToHash, start, i))
  }

  lemma CountedNone(p: Entry, start: nat)
    requires start <= |p.blocks|
    ensures Counted(p, p, start, start, 0, 0)
  {
  }

  lemma CountedStep(p: Entry, p': Entry, start: nat, i: nat, removed: int, written: int)
    requires Counted(p, p', start, i, removed, written)
    ensures i < |p.blocks| && p.blocks[i].buf.None? ==> Counted(p, p', start, i + 1, removed, written)
    ensures i < |p.blocks| && p.blocks[i].buf.Some? ==>
              Counted(p, p'.(numBlocks := p'.numBlocks - 1, nextToHash := if i == p'.nextToHash then i + 1 else p'.nextToHash),
                      start, i + 1, removed + 1, written + 1)
  {
  }
}
