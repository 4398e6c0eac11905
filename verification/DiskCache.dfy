/** The write-back cache of the disk thread: dirty blocks wait in memory and are flushed in runs. */
module DiskCache {
  import opened Common
  import opened DiskBlocks
  import opened DiskEntries
  import opened DiskPieces
  import opened DiskRuns
  import opened DiskReadback
  import opened DiskCalls

  /** Which dirty blocks go first when the cache is full. Sessions avoid reading back unless told otherwise. */
  datatype Algorithm = Lru | LargestContiguous | AvoidReadback

  class DiskThread {
    /** The bytes of every piece on disk. */
    var disk: map<nat, seq<Byte>>
    /** The pieces with dirty blocks, least recently used first. */
    var pieces: seq<Entry>
    /** The pieces a write to which may fail. */
    var unwritable: set<nat>
    var coalesceWrites: bool
    var cacheSize: int
    var blocksWritten: int
    var log: seq<WriteOp>
    var completions: seq<Completion>
    var storageError: bool
    /** The callbacks of blocks that were replaced while they waited. */
    ghost var lost: multiset<nat>

    /** How often a callback was posted, is still to be, or was lost. */
    ghost function Dues(callback: nat): int
      reads `pieces, `completions, `lost
    {
      Due(pieces, callback) + Told(completions, callback) + lost[callback]
    }

    /** Nothing is cached. */
    constructor (disk: map<nat, seq<Byte>>, unwritable: set<nat>, coalesceWrites: bool)
      ensures Valid() && pieces == [] && cacheSize == blocksWritten == 0 && log == [] && completions == [] && forall c: nat :: Dues(c) == 0
      ensures this.disk == disk && this.unwritable == unwritable && this.coalesceWrites == coalesceWrites
    {
      this.disk, this.unwritable, this.coalesceWrites := disk, unwritable, coalesceWrites;
      pieces, cacheSize, blocksWritten, log, completions, storageError, lost := [], 0, 0, [], [], false, multiset{};
    }

    /** A positioned write of one or more buffers. It may fail, leaving any bytes of the piece behind. */
    method WriteImpl(id: nat, data: seq<Byte>, offset: nat)
      requires id in disk && offset + |data| <= |disk[id]|
      modifies `disk, `log, `storageError
      ensures log == old(log) + [WriteOp(id, offset, data)]
      ensures id in disk && disk == old(disk)[id := disk[id]] && |disk[id]| == |old(disk)[id]|
      ensures storageError || disk[id] == WriteAt(old(disk)[id], offset, data)
      ensures old(storageError) ==> storageError
      ensures storageError ==> old(storageError) || id in unwritable
    {
      var ok := *;
      if ok || id !in unwritable {
        disk := disk[id := WriteAt(disk[id], offset, data)];
      } else {
        storageError := true;
      }
      log := log + [WriteOp(id, offset, data)];
    }

    /** Writes the run that was gathered up to block `end`. */
    method WriteRun(p: Entry, ghost run: nat, end: nat, total: int, iov: seq<seq<Byte>>, copy: seq<Byte>, ghost offset: int)
      requires p.id in disk && Buffers(p.blocks, |disk[p.id]|) && run < end <= |p.blocks|
      requires Gathered(p.blocks, |disk[p.id]|, coalesceWrites, iov, copy, offset, total, run, end)
      modifies `disk, `log, `storageError
      ensures p.id in disk && disk == old(disk)[p.id := disk[p.id]] && |disk[p.id]| == |old(disk)[p.id]|
      ensures AllCached(p.blocks, run, end)
      ensures log == old(log) + [WriteOp(p.id, run * BLOCK_SIZE, RunData(p.blocks, run, end))]
      ensures storageError || (run * BLOCK_SIZE + |RunData(p.blocks, run, end)| <= |disk[p.id]|
                && disk[p.id] == WriteAt(old(disk)[p.id], run * BLOCK_SIZE, RunData(p.blocks, run, end)))
      ensures old(storageError) ==> storageError
      ensures storageError ==> old(storageError) || p.id in unwritable
    {
      var size := |disk[p.id]|;
      RunLength(p.blocks, size, run, end);
      var at := (if end * BLOCK_SIZE < size then end * BLOCK_SIZE else size) - total;
      var data := if coalesceWrites then copy[..total] else Flatten(iov);
      WriteImpl(p.id, data, at);
    }

    /** Adds block i to the run being gathered. */
    method TakeBlock(p: Entry, size: nat, total: int, offset: int, iov: seq<seq<Byte>>, copy: seq<Byte>, ghost run: nat, i: nat)
      returns (total': int, offset': int, iov': seq<seq<Byte>>, copy': seq<Byte>)
      requires Buffers(p.blocks, size) && i < |p.blocks| && p.blocks[i].buf.Some?
      requires Gathered(p.blocks, size, coalesceWrites, iov, copy, offset, total, run, i)
      modifies `cacheSize, `blocksWritten
      ensures Gathered(p.blocks, size, coalesceWrites, iov', copy', offset', total', run, i + 1)
      ensures total' > 0 && |copy'| == |copy|
      ensures cacheSize == old(cacheSize) - 1 && blocksWritten == old(blocksWritten) + 1
    {
      GatherMore(p.blocks, size, coalesceWrites, iov, copy, offset, total, run, i);
      hide Gathered, RunData, Flatten;
      iov', copy', offset' := iov, copy, offset;
      if coalesceWrites {
        copy' := WriteAt(copy, offset, p.blocks[i].buf.value);
        offset' := offset + BLOCK_SIZE;
      } else {
        iov' := iov + [p.blocks[i].buf.value];
      }
      total' := total + BlockLength(size, i);
      blocksWritten := blocksWritten + 1;
      cacheSize := cacheSize - 1;
    }

    /** Writes a run that ends at block i, in a flush of start..end-1 that has reached it. */
    method EndRun(p: Entry, ghost before: seq<Byte>, ghost start: nat, ghost run: nat, i: nat, ghost end: nat,
                  total: int, iov: seq<seq<Byte>>, copy: seq<Byte>, ghost offset: int)
      requires p.id in disk && Buffers(p.blocks, |disk[p.id]|) && |before| == |disk[p.id]|
      requires start <= run < i <= end <= |p.blocks| && (i == end || p.blocks[i].buf.None?)
      requires Gathered(p.blocks, |disk[p.id]|, coalesceWrites, iov, copy, offset, total, run, i)
      requires !storageError ==> Flushed(p.blocks, before, disk[p.id], start, run)
      modifies `disk, `log, `storageError
      ensures p.id in disk && disk == old(disk)[p.id := disk[p.id]] && |disk[p.id]| == |old(disk)[p.id]|
      ensures !storageError ==> Flushed(p.blocks, before, disk[p.id], start, i)
      ensures storageError ==> old(storageError) || p.id in unwritable
      ensures log + Writes(p.blocks, p.id, i, end) == old(log) + Writes(p.blocks, p.id, run, end)
    {
      ghost var disk0 := disk[p.id];
      WriteRun(p, run, i, total, iov, copy, offset);
      FlushedMore(p.blocks, before, disk0, start, run, i);
      WritesRun(p.blocks, p.id, run, i, end);
    }

    /** Writes out the runs of cached blocks in start..end-1 of a piece; its blocks stay where they are. */
    method WriteRuns(p: Entry, start: nat, end: nat) returns (p': Entry)
      requires p.id in disk && Buffers(p.blocks, |disk[p.id]|) && !storageError
      requires start <= end <= |p.blocks| == NumBlocks(|disk[p.id]|)
      modifies `disk, `log, `storageError, `cacheSize, `blocksWritten
      ensures p.id in disk && disk == old(disk)[p.id := disk[p.id]] && |disk[p.id]| == |old(disk)[p.id]|
      ensures !storageError ==> Flushed(p.blocks, old(disk)[p.id], disk[p.id], start, end)
      ensures storageError ==> p.id in unwritable
      ensures log == old(log) + Writes(p.blocks, p.id, start, end)
      ensures Counted(p, p', start, end, old(cacheSize) - cacheSize, blocksWritten - old(blocksWritten))
    {
      hide *;
      var size := |disk[p.id]|;
      p' := p;
      var total, offset := 0, 0;
      var copy := disk[p.id];
      var iov: seq<seq<Byte>> := [];
      ghost var run := start;
      GatherNone(p.blocks, size, coalesceWrites, copy, start);
      FlushedNone(p.blocks, disk[p.id], start);
      CountedNone(p, start);
      var i := start;
      while i <= end
        invariant start <= run <= i <= end + 1 && (i == end + 1 ==> run == end)
        invariant p.id in disk && disk == old(disk)[p.id := disk[p.id]] && |disk[p.id]| == size
        invariant storageError ==> p.id in unwritable
        invariant !storageError ==> Flushed(p.blocks, old(disk)[p.id], disk[p.id], start, run)
        invariant log + Writes(p.blocks, p.id, run, end) == old(log) + Writes(p.blocks, p.id, start, end)
        invariant i <= end ==> Gathered(p.blocks, size, coalesceWrites, iov, copy, offset, total, run, i)
        invariant (i <= end ==> (run < i <==> total > 0)) && total >= 0 && |copy| == size
        invariant total == 0 ==> iov == [] && offset == 0
        invariant Counted(p, p', start, if i <= end then i else end, old(cacheSize) - cacheSize, blocksWritten - old(blocksWritten))
      {
        CountedStep(p, p', start, i, old(cacheSize) - cacheSize, blocksWritten - old(blocksWritten));
        if i == end || p.blocks[i].buf.None? {
          if total != 0 {
            EndRun(p, old(disk)[p.id], start, run, i, end, total, iov, copy, offset);
            run := i;
            iov := [];
            total, offset := 0, 0;
          }
          if i < end {
            FlushedSkip(p.blocks, old(disk)[p.id], disk[p.id], start, i);
            WritesSkip(p.blocks, p.id, i, end);
            run := i + 1;
            GatherNone(p.blocks, size, coalesceWrites, copy, i + 1);
          }
        } else {
          total, offset, iov, copy := TakeBlock(p, size, total, offset, iov, copy, run, i);
          p' := p'.(numBlocks := p'.numBlocks - 1);
          if i == p'.nextToHash {
            p' := p'.(nextToHash := p'.nextToHash + 1);
          }
        }
        i := i + 1;
      }
      WritesNone(p.blocks, p.id, end);
    }

    /** Posts the outcome of every cached block of a range and lets its buffer go. */
    method ReleaseBlocks(p: Entry, size: nat, start: nat, end: nat, failed: bool) returns (p': Entry, ret: nat)
      requires start <= end <= |p.blocks|
      modifies `completions
      ensures p' == p.(blocks := p'.blocks) && Emptied(p.blocks, p'.blocks, start, end)
      ensures ret == CountCached(p.blocks, start, end)
      ensures completions == old(completions) + Posted(p.blocks, size, p.id, start, end, failed)
    {
      p', ret := p, 0;
      for i := start to end
        invariant p' == p.(blocks := p'.blocks) && Emptied(p.blocks, p'.blocks, start, i)
        invariant ret == CountCached(p.blocks, start, i)
        invariant completions == old(completions) + Posted(p.blocks, size, p.id, start, i, failed)
      {
        var b := p'.blocks[i];
        if b.Cached() {
          var length := BlockLength(size, i);
          if b.callback != 0 {
            completions := completions
              + [Completion(b.callback, p.id, i * BLOCK_SIZE, length, if failed then -1 else length)];
          }
          p' := p'.(blocks := p'.blocks[i := EMPTY_BLOCK]);
          ret := ret + 1;
        }
      }
    }

    /** The length of the longest run of cached blocks. */
    method ContiguousBlocks(blocks: seq<Block>) returns (ret: nat)
      ensures ret == LongestRun(blocks, |blocks|)
    {
      ret := 0;
      var current := 0;
      for i := 0 to |blocks|
        invariant current == RunBefore(blocks, i)
        invariant (if current > ret then current else ret) == LongestRun(blocks, i)
      {
        if blocks[i].Cached() {
          current := current + 1;
        } else {
          if current > ret {
            ret := current;
          }
          current := 0;
        }
      }
      if current > ret {
        ret := current;
      }
    }

    ghost predicate Valid()
      reads this
    {
      && !storageError && EntriesOk(pieces, disk) && Total(pieces) <= cacheSize
    }

    /** Flushes the dirty blocks start..end-1 of a cached piece. */
    method FlushRange(e: Entry, start: nat, end: nat) returns (e': Entry, ret: nat, failed: bool)
      requires e.id in disk && EntryOk(e, |disk[e.id]|) && start < end && !storageError
      modifies `disk, `log, `storageError, `cacheSize, `blocksWritten, `completions
      ensures !storageError && e.id in disk && disk == old(disk)[e.id := disk[e.id]]
      ensures FlushOf(e, old(disk)[e.id], e', disk[e.id], start, end, ret, failed)
      ensures failed ==> e.id in unwritable
      ensures cacheSize == old(cacheSize) - ret && blocksWritten == old(blocksWritten) + ret
      ensures log == old(log) + Writes(e.blocks, e.id, First(e, start, end), Limit(e, end))
      ensures completions == old(completions) + Posted(e.blocks, |disk[e.id]|, e.id, First(e, start, end), Limit(e, end), failed)
    {
      hide Buffers, Flushed, Writes, Emptied, Posted, SameOverlay, LongestRun, CountCached, NextToHash;
      var size := |disk[e.id]|;
      var limit := Limit(e, end);
      var first := First(e, start, end);
      EntryBlocks(e, size);
      e' := WriteRuns(e, first, limit);
      failed := storageError;
      storageError := false;
      e', ret := ReleaseBlocks(e', size, first, limit, failed);
      EmptiedCount(e.blocks, e'.blocks, first, limit);
      EmptiedBuffers(e.blocks, e'.blocks, first, limit, size);
      if !failed {
        FlushKeepsOverlay(e.blocks, old(disk)[e.id], e'.blocks, disk[e.id], first, limit);
      }
      if ret > 0 {
        var longest := ContiguousBlocks(e'.blocks);
        e' := e'.(numContiguous := longest);
      } else {
        EmptiedNothing(e.blocks, e'.blocks, first, limit);
      }
    }

    /** Flushes the longest run of a piece, or with avoid-readback the run at the hashing position, if it is
        long enough. `pos` is where that run starts. */
    method FlushContiguousBlocks(e: Entry, lowerLimit: nat, avoidReadback: bool)
      returns (e': Entry, ret: nat, failed: bool, ghost pos: nat)
      requires e.id in disk && EntryOk(e, |disk[e.id]|) && !storageError
      modifies `disk, `log, `storageError, `cacheSize, `blocksWritten, `completions
      ensures !storageError && e.id in disk && disk == old(disk)[e.id := disk[e.id]]
      ensures cacheSize == old(cacheSize) - ret && blocksWritten == old(blocksWritten) + ret
      ensures var length := if avoidReadback then RunEnd(e.blocks, e.nextToHash, |e.blocks|) - e.nextToHash
                            else LongestRun(e.blocks, |e.blocks|);
        && ret == (if length < lowerLimit then 0 else length) && (failed ==> e.id in unwritable)
        && pos + ret <= |e.blocks| && AllCached(e.blocks, pos, pos + ret) && (avoidReadback && ret > 0 ==> pos == e.nextToHash)
        && (!avoidReadback && ret > 0 ==> FirstRun(e.blocks, pos, ret))
        && (if ret == 0 then e' == e && !failed && disk == old(disk) && log == old(log) && completions == old(completions)
            else
              && FlushOf(e, old(disk)[e.id], e', disk[e.id], pos, pos + ret, ret, failed)
              && log == old(log) + [WriteOp(e.id, pos * BLOCK_SIZE, RunData(e.blocks, pos, pos + ret))]
              && completions == old(completions) + Posted(e.blocks, |disk[e.id]|, e.id, pos, pos + ret, failed))
    {
      hide Buffers, Writes, Posted, FlushOf, RunData;
      e', ret, failed := e, 0, false;
      var n := |e.blocks|;
      var length, at := FindRun(e, avoidReadback);
      pos := 0;
      if length < lowerLimit || length <= 0 { return; }
      pos := at;
      RunIsOneWrite(e.blocks, e.id, at, at + length);
      RunCount(e.blocks, at, at + length);
      e', ret, failed := FlushRange(e, at, at + length);
      FlushCount(e, old(disk)[e.id], e', disk[e.id], at, at + length, ret, failed);
    }

    /** Finds the run to flush. */
    method FindRun(e: Entry, avoidReadback: bool) returns (length: nat, pos: nat)
      requires avoidReadback ==> e.nextToHash <= |e.blocks|
      ensures length == if avoidReadback then RunEnd(e.blocks, e.nextToHash, |e.blocks|) - e.nextToHash
                        else LongestRun(e.blocks, |e.blocks|)
      ensures pos + length <= |e.blocks| && AllCached(e.blocks, pos, pos + length)
      ensures avoidReadback && length > 0 ==> pos == e.nextToHash
      ensures !avoidReadback && length > 0 ==> FirstRun(e.blocks, pos, length)
    {
      hide RunBefore, LongestRun, FirstRun, RunEnd;
      var n := |e.blocks|;
      length, pos := 0, 0;
      var current, start: nat := 0, 0;
      if avoidReadback {
        start := e.nextToHash;
        var i := e.nextToHash;
        while i < n && e.blocks[i].Cached()
          invariant start <= i <= n && current == i - start && AllCached(e.blocks, start, i)
        {
          current := current + 1;
          i := i + 1;
        }
        RunEndIs(e.blocks, start, i, n);
      } else {
        RunNone(e.blocks);
        for i := 0 to n
          invariant current == RunBefore(e.blocks, i) && start + current == i && length == LongestRun(e.blocks, start)
          invariant (if current > length then current else length) == LongestRun(e.blocks, i)
          invariant if length > 0 then FirstRun(e.blocks, pos, length) else pos == 0
        {
          RunStarts(e.blocks, i, start, current, length);
          RunStep(e.blocks, i);
          if e.blocks[i].Cached() {
            current := current + 1;
          } else {
            if current > length {
              length, pos := current, start;
            }
            current, start := 0, i + 1;
          }
        }
        RunStarts(e.blocks, n, start, current, length);
      }
      if current > length {
        length, pos := current, start;
      }
      FirstCached(e.blocks, pos, length);
    }

    /** Flushes a range of the k-th piece where it stands in the list. */
    method FlushAt(k: nat, start: nat, end: nat) returns (ret: nat, failed: bool)
      requires Valid() && k < |pieces| && start < end
      modifies `disk, `log, `storageError, `cacheSize, `blocksWritten, `completions, `pieces
      ensures forall c: nat | c > 0 :: Dues(c) == old(Dues(c))
      ensures Valid() && |pieces| == |old(pieces)| && pieces == old(pieces)[k := pieces[k]]
      ensures SameContent(old(pieces), old(disk), pieces, disk, unwritable)
      ensures Total(pieces) == Total(old(pieces)) - ret && cacheSize == old(cacheSize) - ret
      ensures old(pieces)[k].id in disk && old(pieces)[k].id in old(disk)
      ensures FlushOf(old(pieces)[k], old(disk)[old(pieces)[k].id], pieces[k], disk[old(pieces)[k].id], start, end, ret, failed)
      ensures var e := old(pieces)[k]; log == old(log) + Writes(e.blocks, e.id, First(e, start, end), Limit(e, end))
    {
      hide EntriesOk, EntryOk, FlushOf, Total, SameContent, SameOverlay, Writes, Posted, Due, Told;
      ghost var was, told := disk, completions;
      EntryAt(pieces, disk, k);
      var e := pieces[k];
      var e';
      e', ret, failed := FlushRange(e, start, end);
      FlushFacts(e, was[e.id], e', disk[e.id], start, end, ret, failed);
      FlushOfDues(pieces, k, was[e.id], e', disk[e.id], start, end, ret, failed, told, completions);
      ReplaceEntry(pieces, was, k, e', disk[e.id], unwritable);
      TotalReplaced(pieces, k, e');
      pieces := pieces[k := e'];
    }

    /** Drops the k-th piece, all of whose blocks were flushed. */
    method Drop(k: nat)
      requires Valid() && k < |pieces| && pieces[k].numBlocks == 0
      modifies `pieces
      ensures forall c: nat | c > 0 :: Dues(c) == old(Dues(c))
      ensures Valid() && pieces == Without(old(pieces), k) && Total(pieces) == Total(old(pieces))
      ensures SameContent(old(pieces), disk, pieces, disk, {})
    {
      hide EntriesOk, Total, SameContent, Due, Told;
      DropEntry(pieces, disk, k);
      DropDues(pieces, disk, k);
      TotalWithout(pieces, k);
      pieces := Without(pieces, k);
    }

    /** Flushes all of the first piece and drops it. */
    method FlushFirst() returns (ret: nat)
      requires Valid() && |pieces| > 0
      modifies `disk, `log, `storageError, `cacheSize, `blocksWritten, `completions, `pieces
      ensures forall c: nat | c > 0 :: Dues(c) == old(Dues(c))
      ensures Valid() && SameContent(old(pieces), old(disk), pieces, disk, unwritable)
      ensures pieces == Without(old(pieces), 0) && ret == old(pieces)[0].numBlocks
      ensures var e := old(pieces)[0]; log == old(log) + Writes(e.blocks, e.id, 0, |e.blocks|)
      ensures Total(pieces) == Total(old(pieces)) - ret && cacheSize == old(cacheSize) - ret
    {
      hide EntriesOk, FlushOf, Total, SameContent, SameOverlay, Writes, Dues;
      ghost var pieces0, disk0 := pieces, disk;
      EntryAt(pieces, disk, 0);
      var e := pieces[0];
      SomeBlocks(e, |disk[e.id]|);
      hide EntryOk;
      var failed;
      ret, failed := FlushAt(0, 0, |e.blocks|);
      FlushFacts(e, disk0[e.id], pieces[0], disk[e.id], 0, |e.blocks|, ret, failed);
      ghost var pieces1, disk1 := pieces, disk;
      Drop(0);
      SameContentAgain(pieces0, disk0, pieces1, disk1, unwritable, pieces, disk, {}, unwritable);
    }

    /** Flushes whole pieces from the least recently used on, until at least `blocks` blocks went. `k` counts them. */
    method FlushLru(blocks: nat) returns (ret: nat, ghost k: nat)
      requires Valid()
      modifies `disk, `log, `storageError, `cacheSize, `blocksWritten, `completions, `pieces
      ensures forall c: nat | c > 0 :: Dues(c) == old(Dues(c))
      ensures Valid() && SameContent(old(pieces), old(disk), pieces, disk, unwritable)
      ensures Total(pieces) == Total(old(pieces)) - ret && cacheSize == old(cacheSize) - ret
      ensures UsedFirst(old(pieces), old(log), pieces, log, blocks, ret, k)
    {
      hide EntriesOk, Total, SameContent, Without, Writes, AllWrites, Dues;
      ghost var pieces0, disk0 := pieces, disk;
      NothingYet(pieces, disk, log);
      SameContentAgain(pieces, disk, pieces, disk, {}, pieces, disk, {}, unwritable);
      ret, k := 0, 0;
      var left: int := blocks;
      while left > 0
        invariant left == blocks - ret
        invariant Valid() && SameContent(pieces0, disk0, pieces, disk, unwritable)
        invariant Total(pieces) == Total(pieces0) - ret && cacheSize == old(cacheSize) - ret
        invariant k <= |pieces0| && pieces == pieces0[k..] && ret == Total(pieces0[..k]) && log == old(log) + AllWrites(pieces0[..k])
        invariant k > 0 ==> Total(pieces0[..k - 1]) < blocks
        invariant forall c: nat | c > 0 :: Dues(c) == old(Dues(c))
        decreases |pieces|
      {
        if |pieces| == 0 { return; }
        ghost var pieces1, disk1 := pieces, disk;
        var removed := FlushFirst();
        SameContentAgain(pieces0, disk0, pieces1, disk1, unwritable, pieces, disk, unwritable, unwritable);
        DropFirst(pieces1, pieces0, k);
        left := left - removed;
        ret := ret + removed;
        k := k + 1;
      }
    }

    /** Flushes a run of the k-th piece where it stands in the list. */
    method FlushRunAt(k: nat, lowerLimit: nat, avoidReadback: bool) returns (ret: nat)
      requires Valid() && k < |pieces|
      modifies `disk, `log, `storageError, `cacheSize, `blocksWritten, `completions, `pieces
      ensures forall c: nat | c > 0 :: Dues(c) == old(Dues(c))
      ensures Valid() && |pieces| == |old(pieces)| && pieces == old(pieces)[k := pieces[k]] && pieces[k].id == old(pieces)[k].id
      ensures SameContent(old(pieces), old(disk), pieces, disk, unwritable)
      ensures Total(pieces) == Total(old(pieces)) - ret && cacheSize == old(cacheSize) - ret
      ensures !avoidReadback ==> ret == if old(pieces)[k].numContiguous < lowerLimit then 0 else old(pieces)[k].numContiguous
      ensures pieces[k].numContiguous <= old(pieces)[k].numContiguous
      ensures ret == 0 ==> log == old(log) && pieces[k] == old(pieces)[k] && disk == old(disk)
      ensures ret > 0 ==> exists w :: log == old(log) + [w] && NumBlocks(|w.data|) == ret && w.id == pieces[k].id
      ensures avoidReadback ==>
                pieces[k] == AfterLine(old(pieces)[k], lowerLimit) && log == old(log) + LineWrite(old(pieces)[k], lowerLimit)
      ensures !avoidReadback ==>
                pieces[k] == AfterLongLine(old(pieces)[k], lowerLimit) && log == old(log) + LongLineWrite(old(pieces)[k], lowerLimit)
    {
      hide EntriesOk, FlushOf, HashRun, AfterLine, LineWrite, AfterLongLine, LongLineWrite, FirstRun, LongestRun, Due, Told, Total,
           SameContent, SameOverlay, EntryOk, Posted, RunData, Buffers, NumBlocks;
      ghost var pieces0, disk0, told := pieces, disk, completions;
      EntryAt(pieces, disk, k);
      var e := pieces[k];
      var e', failed;
      ghost var pos;
      e', ret, failed, pos := FlushContiguousBlocks(e, lowerLimit, avoidReadback);
      NoRunNoCount(e, |disk0[e.id]|);
      HashParts(e, |disk0[e.id]|);
      if avoidReadback {
        RunIsHashRun(e);
        LineFlushed(e, disk0[e.id], e', disk[e.id], ret, failed, lowerLimit);
      } else {
        LongLine(e, disk0[e.id], e', disk[e.id], pos, ret, failed, lowerLimit);
      }
      if ret == 0 {
        NothingYet(pieces, disk, log);
        SameContentAgain(pieces, disk, pieces, disk, {}, pieces, disk, {}, unwritable);
      } else {
        RunBlocks(e.blocks, |disk0[e.id]|, pos, pos + ret);
        FlushFacts(e, disk0[e.id], e', disk[e.id], pos, pos + ret, ret, failed);
        FlushOfDues(pieces, k, disk0[e.id], e', disk[e.id], pos, pos + ret, ret, failed, told, completions);
        ReplaceEntry(pieces, disk0, k, e', disk[e.id], unwritable);
        TotalReplaced(pieces, k, e');
        assert log == old(log) + [WriteOp(e.id, pos * BLOCK_SIZE, RunData(e.blocks, pos, pos + ret))];
      }
      assert ret == 0 ==> pieces[k := e'] == pieces;
      pieces := pieces[k := e'];
    }

    /** The first piece with the longest run. */
    method MostContiguous() returns (k: nat)
      requires |pieces| > 0
      ensures k < |pieces|
      ensures forall j | 0 <= j < |pieces| :: pieces[j].numContiguous <= pieces[k].numContiguous
      ensures forall j | 0 <= j < k :: pieces[j].numContiguous < pieces[k].numContiguous
    {
      k := 0;
      for i := 1 to |pieces|
        invariant k < i
        invariant forall j | 0 <= j < i :: pieces[j].numContiguous <= pieces[k].numContiguous
        invariant forall j | 0 <= j < k :: pieces[j].numContiguous < pieces[k].numContiguous
      {
        if pieces[k].numContiguous < pieces[i].numContiguous {
          k := i;
        }
      }
    }

    /** Flushes the run of the i-th piece that is about to be hashed, and drops the piece when all of it is hashed.
        With the hashing position behind the last slot, whether that reads as a cached block is anybody's guess. */
    method FlushHash(i: nat) returns (ret: nat, outOfRange: bool, dropped: bool)
      requires Valid() && i < |pieces|
      modifies `disk, `log, `storageError, `cacheSize, `blocksWritten, `completions, `pieces
      ensures forall c: nat | c > 0 :: Dues(c) == old(Dues(c))
      ensures Valid() && SameContent(old(pieces), old(disk), pieces, disk, unwritable)
      ensures Total(pieces) == Total(old(pieces)) - ret && cacheSize == old(cacheSize) - ret
      ensures ret == HashRun(old(pieces)[i]) && (outOfRange <==> Hashed(old(pieces)[i]))
      ensures log == old(log) + HashWrite(old(pieces)[i])
      ensures if dropped then pieces == Without(old(pieces), i) else |pieces| == |old(pieces)| && pieces == old(pieces)[i := pieces[i]]
      ensures !outOfRange ==> Left(old(pieces)[i]) == if dropped then [] else [pieces[i]]
    {
      hide *;
      ghost var pieces0, disk0 := pieces, disk;
      ValidParts();
      EntryAt(pieces, disk, i);
      NothingYet(pieces, disk, log);
      SameContentAgain(pieces, disk, pieces, disk, {}, pieces, disk, {}, unwritable);
      var e := pieces[i];
      HashParts(e, |disk[e.id]|);
      ret, dropped, outOfRange := 0, false, e.nextToHash >= |e.blocks|;
      var cached := *;
      if !outOfRange {
        cached := e.blocks[e.nextToHash].buf.Some?;
      }
      if !cached {
        assert pieces0[i := e] == pieces0;
        return;
      }
      var end := e.nextToHash + 1;
      while end < |e.blocks| && e.blocks[end].buf.Some?
        invariant outOfRange ==> end == e.nextToHash + 1
        invariant !outOfRange ==> end <= |e.blocks| && forall j | e.nextToHash <= j < end :: e.blocks[j].buf.Some?
      {
        end := end + 1;
      }
      HashEnd(e, end);
      var failed;
      ret, failed := FlushAt(i, e.nextToHash, end);
      FlushedAtHash(e, disk0[e.id], pieces[i], disk[e.id], end, ret, failed);
      var contiguous := ContiguousBlocks(pieces[i].blocks);
      assert pieces[i := pieces[i].(numContiguous := contiguous)] == pieces;
      pieces := pieces[i := pieces[i].(numContiguous := contiguous)];
      if pieces[i].numBlocks == 0 && pieces[i].nextToHash == |pieces[i].blocks| {
        ghost var pieces1, disk1 := pieces, disk;
        Drop(i);
        dropped := true;
        WithoutReplaced(pieces0, i, pieces1[i]);
        SameContentAgain(pieces0, disk0, pieces1, disk1, unwritable, pieces, disk, {}, unwritable);
      }
    }

    lemma ValidParts()
      ensures Valid() <==> !storageError && EntriesOk(pieces, disk) && Total(pieces) <= cacheSize
    {
      hide EntriesOk, Total;
    }

    /** Flushes what is about to be hashed, piece by piece from the least recently used on, until at least `blocks` blocks
        went. `k` counts the pieces looked at. */
    method FlushHashable(blocks: nat) returns (ret: nat, outOfRange: bool, ghost k: nat)
      requires Valid() && blocks > 0
      modifies `disk, `log, `storageError, `cacheSize, `blocksWritten, `completions, `pieces
      ensures forall c: nat | c > 0 :: Dues(c) == old(Dues(c))
      ensures Valid() && SameContent(old(pieces), old(disk), pieces, disk, unwritable)
      ensures Total(pieces) == Total(old(pieces)) - ret && cacheSize == old(cacheSize) - ret
      ensures k <= |old(pieces)| && ret == HashRuns(old(pieces)[..k]) && log == old(log) + HashWrites(old(pieces)[..k])
      ensures (k == |old(pieces)| || ret >= blocks) && (k > 0 ==> HashRuns(old(pieces)[..k - 1]) < blocks)
      ensures outOfRange <==> PastEnd(old(pieces), blocks)
      ensures !outOfRange ==> pieces == AllLeft(old(pieces)[..k]) + old(pieces)[k..]
    {
      hide *;
      ghost var pieces0, disk0 := pieces, disk;
      NothingYet(pieces, disk, log);
      SameContentAgain(pieces, disk, pieces, disk, {}, pieces, disk, {}, unwritable);
      HashNone(pieces);
      ret, outOfRange, k := 0, false, 0;
      var left: int, i := blocks, 0;
      while i < |pieces|
        invariant left == blocks - ret > 0 && Valid() && SameContent(pieces0, disk0, pieces, disk, unwritable)
        invariant Total(pieces) == Total(pieces0) - ret && cacheSize == old(cacheSize) - ret
        invariant i <= |pieces| && k <= |pieces0| && pieces[i..] == pieces0[k..]
        invariant ret == HashRuns(pieces0[..k]) && log == old(log) + HashWrites(pieces0[..k])
        invariant k > 0 ==> HashRuns(pieces0[..k - 1]) < blocks
        invariant outOfRange <==> exists j: nat :: j < k && Hashed(pieces0[j])
        invariant !outOfRange ==> pieces[..i] == AllLeft(pieces0[..k])
        invariant forall c: nat | c > 0 :: Dues(c) == old(Dues(c))
        decreases |pieces| - i
      {
        ghost var pieces1, disk1 := pieces, disk;
        HashMore(pieces0, k);
        assert pieces[i] == pieces[i..][0] == pieces0[k];
        var removed, behind, dropped := FlushHash(i);
        SameContentAgain(pieces0, disk0, pieces1, disk1, unwritable, pieces, disk, unwritable, unwritable);
        FlushedOne(pieces1, pieces, i, dropped);
        assert pieces1[i..][1..] == pieces1[i + 1..] && pieces0[k..][1..] == pieces0[k + 1..];
        outOfRange := outOfRange || behind;
        left := left - removed;
        ret := ret + removed;
        k := k + 1;
        if !dropped {
          i := i + 1;
        }
        if left <= 0 { break; }
      }
      PastEndIs(pieces0, blocks, k);
      assert pieces == pieces[..i] + pieces[i..];
    }

    /** Flushes a longest run, and drops its piece if nothing is left of it. */
    method FlushMost(k: nat) returns (ret: nat)
      requires Valid() && k < |pieces| && k == Most(pieces)
      modifies `disk, `log, `storageError, `cacheSize, `blocksWritten, `completions, `pieces
      ensures forall c: nat | c > 0 :: Dues(c) == old(Dues(c))
      ensures Valid() && SameContent(old(pieces), old(disk), pieces, disk, unwritable)
      ensures Total(pieces) == Total(old(pieces)) - ret && cacheSize == old(cacheSize) - ret
      ensures Rounded(old(pieces), old(log), pieces, log, ret)
      ensures RunWritten(old(pieces), old(log), pieces, log, k, ret)
      ensures |pieces| <= |old(pieces)| && (ret == 0 ==> |pieces| < |old(pieces)|)
    {
      hide *;
      ghost var pieces1, disk1, log1 := pieces, disk, log;
      ValidParts();
      EntryAt(pieces, disk, k);
      NoRunNoCount(pieces[k], |disk[pieces[k].id]|);
      LineOfNone(pieces[k]);
      ret := FlushRunAt(k, 0, false);
      if pieces[k].numBlocks == 0 {
        ghost var pieces2, disk2 := pieces, disk;
        Drop(k);
        SameContentAgain(pieces1, disk1, pieces2, disk2, unwritable, pieces, disk, {}, unwritable);
        WithoutLength(pieces2, k);
        RunIsWritten(pieces1, log1, pieces2[k], log, k, ret);
        RoundIs(pieces1, log1, k, pieces2[k], pieces, log, ret);
      } else {
        RunIsWritten(pieces1, log1, pieces[k], log, k, ret);
        RoundIs(pieces1, log1, k, pieces[k], pieces, log, ret);
      }
    }

    /** Flushes the longest run of all pieces again and again, until at least `blocks` blocks went. Pieces without blocks
        are dropped on the way, or end it. */
    method FlushLargest(blocks: nat, stopAtEmpty: bool) returns (ret: nat, ghost n: nat)
      requires Valid()
      modifies `disk, `log, `storageError, `cacheSize, `blocksWritten, `completions, `pieces
      ensures forall c: nat | c > 0 :: Dues(c) == old(Dues(c))
      ensures Valid() && SameContent(old(pieces), old(disk), pieces, disk, unwritable)
      ensures Total(pieces) == Total(old(pieces)) - ret && cacheSize == old(cacheSize) - ret
      ensures ret >= blocks || if stopAtEmpty then Total(pieces) == 0 else pieces == []
      ensures RunsFirst(old(pieces), old(log), pieces, log, blocks, ret, n) && LongestFirst(old(log), pieces, log, blocks, ret)
      ensures EmptiesStay(old(pieces), pieces, stopAtEmpty)
    {
      hide *;
      ghost var pieces0, disk0 := pieces, disk;
      NothingFlushed(pieces, disk, log, blocks, stopAtEmpty, unwritable);
      NoRounds(pieces, log, blocks);
      ret, n := 0, 0;
      var left: int := blocks;
      ValidParts();
      TotalNone(pieces, disk);
      while left > 0
        invariant left == blocks - ret
        invariant Valid() && SameContent(pieces0, disk0, pieces, disk, unwritable)
        invariant Total(pieces) == Total(pieces0) - ret && cacheSize == old(cacheSize) - ret && Total(pieces) >= 0
        invariant RunsFirst(pieces0, old(log), pieces, log, blocks, ret, n)
        invariant forall c: nat | c > 0 :: Dues(c) == old(Dues(c))
        invariant LongestFirst(old(log), pieces, log, blocks, ret) && EmptiesStay(pieces0, pieces, stopAtEmpty)
        decreases Total(pieces) + |pieces|
      {
        ValidParts();
        TotalNone(pieces, disk);
        if |pieces| == 0 {
          assert pieces == [];
          return;
        }
        ghost var pieces1, disk1, log1 := pieces, disk, log;
        var k := MostContiguous();
        if stopAtEmpty && pieces[k].numBlocks == 0 {
          NoRunsNoTotal(pieces, disk, k);
          return;
        }
        MostIs(pieces, k);
        var removed := FlushMost(k);
        RunsMore(pieces0, old(log), pieces1, log1, pieces, log, blocks, ret, n, removed);
        SameContentAgain(pieces0, disk0, pieces1, disk1, unwritable, pieces, disk, unwritable, unwritable);
        LargestStep(old(log), pieces0, pieces1, log1, pieces, log, k, removed, blocks, ret, stopAtEmpty);
        ValidParts();
        TotalNone(pieces, disk);
        left := left - removed;
        ret := ret + removed;
        n := n + 1;
      }
    }

    /** Flushes at least `blocks` dirty blocks, or all there are. To avoid reading back, those about to be hashed go first;
        that looks behind the last slot of a piece if and only if one without blocks left to hash comes before enough of
        them are found. What it reads there makes no difference to readers or to how much is flushed. */
    method FlushCacheBlocks(blocks: nat, algorithm: Algorithm) returns (ret: nat, outOfRange: bool)
      requires Valid()
      modifies `disk, `log, `storageError, `cacheSize, `blocksWritten, `completions, `pieces
      ensures forall c: nat | c > 0 :: Dues(c) == old(Dues(c))
      ensures Valid() && SameContent(old(pieces), old(disk), pieces, disk, unwritable)
      ensures Total(pieces) == Total(old(pieces)) - ret && cacheSize == old(cacheSize) - ret
      ensures ret >= blocks || Total(pieces) == 0
      ensures outOfRange <==> algorithm == AvoidReadback && blocks > 0 && old(cacheSize) > 0 && PastEnd(old(pieces), blocks)
      ensures algorithm == AvoidReadback && blocks > 0 && old(cacheSize) > 0 ==>
                exists k: nat :: HashedFirst(old(pieces), old(log), pieces, log, blocks, ret, outOfRange, k)
      ensures algorithm == Lru && blocks > 0 && old(cacheSize) > 0 ==>
                exists k: nat :: UsedFirst(old(pieces), old(log), pieces, log, blocks, ret, k)
      ensures algorithm == LargestContiguous && blocks > 0 && old(cacheSize) > 0 ==>
                && LongestFirst(old(log), pieces, log, blocks, ret) && (ret >= blocks || pieces == [])
                && exists n: nat :: RunsFirst(old(pieces), old(log), pieces, log, blocks, ret, n)
      ensures blocks == 0 || old(cacheSize) == 0 ==> ret == 0 && pieces == old(pieces) && log == old(log) && disk == old(disk)
    {
      hide *;
      ValidParts();
      ret, outOfRange := 0, false;
      TotalNone(pieces, disk);
      if blocks == 0 || cacheSize == 0 {
        NothingYet(pieces, disk, log);
        SameContentAgain(pieces, disk, pieces, disk, {}, pieces, disk, {}, unwritable);
        return;
      }
      match algorithm {
        case Lru =>
          ghost var k;
          ret, k := FlushLru(blocks);
          UsedEnough(old(pieces), old(log), pieces, log, blocks, ret, k);
        case LargestContiguous =>
          ghost var n;
          ret, n := FlushLargest(blocks, false);
        case AvoidReadback =>
          ghost var k;
          ret, outOfRange, k := FlushHashable(blocks);
          NothingYet(pieces, disk, log);
          ghost var pieces1, disk1, log1 := pieces, disk, log;
          NothingFlushed(pieces, disk, log, blocks - ret, true, unwritable);
          ghost var n := 0;
          NoRounds(pieces, log, blocks - ret);
          if ret < blocks {
            var more;
            more, n := FlushLargest(blocks - ret, true);
            SameContentAgain(old(pieces), old(disk), pieces1, disk1, unwritable, pieces, disk, unwritable, unwritable);
            ret := ret + more;
          }
          HashedFirstIs(old(pieces), old(log), pieces, log, blocks, ret, outOfRange, k, log1, n);
      }
      ValidParts();
      TotalNone(pieces, disk);
    }

    method FindCachedPiece(id: nat) returns (k: nat)
      ensures k <= |pieces| && (k < |pieces| ==> pieces[k].id == id)
      ensures k == |pieces| ==> forall j: nat :: !Holds(pieces, j, id)
    {
      k := 0;
      while k < |pieces| && pieces[k].id != id
        invariant k <= |pieces| && forall j | 0 <= j < k :: pieces[j].id != id
      {
        k := k + 1;
      }
    }

    /** Puts a block in the k-th piece and moves the piece to where its new expiry time belongs. */
    method PutBlock(k: nat, block: nat, buf: seq<Byte>, callback: nat, at: nat)
      requires Valid() && k < |pieces| && pieces[k].id in disk && at < |pieces|
      requires block < NumBlocks(|disk[pieces[k].id]|) && |buf| == BlockLength(|disk[pieces[k].id]|, block)
      modifies `cacheSize, `pieces, `lost
      ensures forall c: nat | c > 0 :: Dues(c) == old(Dues(c)) + if c == callback then 1 else 0
      ensures lost == old(lost) + Replaced(old(pieces)[k], block)
      ensures Valid() && |pieces| == |old(pieces)| && pieces[at].id == old(pieces)[k].id
      ensures block < |old(pieces)[k].blocks| && pieces[at].blocks == Put(old(pieces)[k].blocks, block, buf, callback)
      ensures Stored(old(pieces), disk, pieces, disk, old(pieces)[k].id, block, buf, {})
      ensures cacheSize - Total(pieces) == old(cacheSize - Total(pieces))
      ensures |Without(old(pieces), k)| == |old(pieces)| - 1
      ensures pieces == Inserted(Without(old(pieces), k), at, PutIn(old(pieces)[k], block, buf, callback))
    {
      hide *;
      ValidParts();
      var e := pieces[k];
      EntryAt(pieces, disk, k);
      EntryBlocks(e, |disk[e.id]|);
      PutDone(e, block, buf, callback);
      ReplacedIs(e, block);
      ghost var lost0 := lost;
      lost := lost + Replaced(e, block);
      var recount := false;
      var count := e.numBlocks;
      if e.blocks[block].Cached() {
        cacheSize := cacheSize - 1;
        count := count - 1;
      } else if (block > 0 && e.blocks[block - 1].Cached()) || (block + 1 < |e.blocks| && e.blocks[block + 1].Cached())
                || e.numBlocks == 0 {
        recount := true;
      }
      var blocks := e.blocks[block := Block(Some(buf), callback)];
      cacheSize := cacheSize + 1;
      var contiguous := e.numContiguous;
      if recount {
        contiguous := ContiguousBlocks(blocks);
      }
      var e' := e.(blocks := blocks, numBlocks := count + 1, numContiguous := contiguous);
      PutOk(e, |disk[e.id]|, block, buf, callback, contiguous);
      PutInIs(e, e', |disk[e.id]|, block, buf, callback);
      StorePut(pieces, disk, k, e', block, buf, callback);
      TotalReplaced(pieces, k, e');
      ghost var pieces0 := pieces;
      WithoutLength(pieces, k);
      WithoutReplaced(pieces, k, e');
      pieces := pieces[k := e'];
      ghost var pieces1 := pieces;
      MoveEntry(pieces, disk, k, at);
      WithoutLength(pieces, k);
      InsertedAt(Without(pieces, k), at, e');
      pieces := Inserted(Without(pieces, k), at, e');
      PutDues(pieces0, k, at, e', block, buf, callback);
      forall c: nat
        ensures Dues(c) == Due(pieces, c) + Told(completions, c) + lost[c]
        ensures old(Dues(c)) == Due(pieces0, c) + Told(completions, c) + lost0[c]
      {
        DuesAre(c);
      }
      StoredThen(pieces0, disk, pieces1, disk, pieces, disk, e.id, block, buf, {}, {}, {});
      ValidParts();
    }

    twostate lemma DuesAre(callback: nat)
      ensures Dues(callback) == Due(pieces, callback) + Told(completions, callback) + lost[callback]
      ensures old(Dues(callback)) == Due(old(pieces), callback) + Told(old(completions), callback) + old(lost)[callback]
    {
    }

    /** Starts an entry with one block, unless the piece has no more than one. */
    method CacheBlock(id: nat, block: nat, buf: seq<Byte>, callback: nat, at: nat) returns (cached: bool)
      requires Valid() && id in disk && at <= |pieces| && forall j: nat :: !Holds(pieces, j, id)
      requires block < NumBlocks(|disk[id]|) && |buf| == BlockLength(|disk[id]|, block)
      modifies `cacheSize, `pieces
      ensures forall c: nat | c > 0 :: Dues(c) == old(Dues(c)) + if cached && c == callback then 1 else 0
      ensures Valid() && cacheSize - Total(pieces) == old(cacheSize - Total(pieces))
      ensures cached <==> NumBlocks(|disk[id]|) > 1
      ensures if cached then Stored(old(pieces), disk, pieces, disk, id, block, buf, {}) else pieces == old(pieces)
      ensures cached ==> pieces == Inserted(old(pieces), at, FirstEntry(id, NumBlocks(|disk[id]|), block, buf, callback))
    {
      hide EntriesOk, Total, Inserted, Stored, NumBlocks, BlockLength, EntryOk, Holds, Due, Told;
      var n := NumBlocks(|disk[id]|);
      if n <= 1 { return false; }
      var blocks := seq(n, _ => EMPTY_BLOCK)[block := Block(Some(buf), callback)];
      var e := Entry(id, blocks, 1, 1, 0);
      cacheSize := cacheSize + 1;
      FreshOk(id, |disk[id]|, block, buf, callback);
      StoreNew(pieces, disk, at, e, block, buf, callback);
      TotalInserted(pieces, at, e);
      NewDues(pieces, at, e, block, buf, callback);
      pieces := Inserted(pieces, at, e);
      cached := true;
    }

    /** Takes in a block of the k-th piece, and flushes a run of it if there is one that is long enough. */
    method WriteHeld(k: nat, block: nat, buf: seq<Byte>, callback: nat, place: nat, lineSize: nat, algorithm: Algorithm)
      requires Valid() && k < |pieces| && place < |pieces| && pieces[k].id in disk
      requires block < NumBlocks(|disk[pieces[k].id]|) && |buf| == BlockLength(|disk[pieces[k].id]|, block)
      modifies `disk, `log, `storageError, `cacheSize, `blocksWritten, `completions, `pieces, `lost
      ensures forall c: nat | c > 0 :: Dues(c) == old(Dues(c)) + if c == callback then 1 else 0
      ensures lost == old(lost) + Replaced(old(pieces)[k], block)
      ensures Valid() && Stored(old(pieces), old(disk), pieces, disk, old(pieces)[k].id, block, buf, unwritable)
      ensures cacheSize - Total(pieces) == old(cacheSize - Total(pieces))
      ensures var rest, e := Without(old(pieces), k), PutIn(old(pieces)[k], block, buf, callback);
        && place <= |rest|
        && if algorithm == AvoidReadback
           then log == old(log) + LineWrite(e, lineSize) && pieces == Inserted(rest, place, AfterLine(e, lineSize))
           else
             var e' := AfterLongLine(e, lineSize);
             && log == old(log) + LongLineWrite(e, lineSize)
             && pieces == if e'.numBlocks == 0 && e'.nextToHash == 0 then rest else Inserted(rest, place, e')
    {
      hide *;
      ValidParts();
      ghost var pieces0, disk0 := pieces, disk;
      ghost var id, e := pieces[k].id, PutIn(pieces[k], block, buf, callback);
      EntryAt(pieces, disk, k);
      EntryBlocks(pieces[k], |disk[id]|);
      LineKeeps(pieces[k], |disk[id]|, block, buf, callback, lineSize);
      PutBlock(k, block, buf, callback, place);
      ghost var pieces1 := pieces;
      InsertedAt(Without(pieces0, k), place, e);
      var ret := FlushRunAt(place, lineSize, algorithm == AvoidReadback);
      InsertedReplaced(Without(pieces0, k), place, e, pieces[place]);
      StoredThen(pieces0, disk0, pieces1, disk0, pieces, disk, id, block, buf, {}, unwritable, unwritable);
      if pieces[place].numBlocks == 0 && pieces[place].nextToHash == 0 {
        ghost var pieces2, disk2 := pieces, disk;
        Drop(place);
        InsertedDropped(Without(pieces0, k), place, pieces2[place]);
        StoredThen(pieces0, disk0, pieces2, disk2, pieces, disk, id, block, buf, unwritable, {}, unwritable);
      }
    }

    /** Writes the only block of a piece at once and says so. */
    method WriteDirect(id: nat, block: nat, buf: seq<Byte>, callback: nat) returns (ghost written: bool)
      requires Valid() && id in disk && NumBlocks(|disk[id]|) <= 1 && forall k: nat :: !Holds(pieces, k, id)
      requires block < NumBlocks(|disk[id]|) && |buf| == BlockLength(|disk[id]|, block)
      modifies `disk, `log, `storageError, `completions
      ensures forall c: nat | c > 0 :: Dues(c) == old(Dues(c)) + if c == callback then 1 else 0
      ensures Valid() && Stored(old(pieces), old(disk), pieces, disk, id, block, buf, unwritable)
      ensures log == old(log) + [WriteOp(id, block * BLOCK_SIZE, buf)]
      ensures written ==> disk == old(disk)[id := WriteAt(old(disk)[id], block * BLOCK_SIZE, buf)]
      ensures !written ==> id in unwritable
      ensures completions == old(completions)
              + if callback == 0 then [] else [Completion(callback, id, block * BLOCK_SIZE, |buf|, if written then |buf| else -1)]
    {
      hide EntriesOk, Total, Stored, SameContent, EntryOk, NumBlocks, BlockLength, Holds, Due, Told;
      ghost var disk0 := disk;
      DirectFits(disk, id, block, buf);
      WriteImpl(id, buf, block * BLOCK_SIZE);
      StoreDirect(pieces, disk0, id, block, buf, disk, unwritable);
      written := !storageError;
      if callback != 0 {
        var result := if storageError then -1 else |buf|;
        OneTold(completions, Completion(callback, id, block * BLOCK_SIZE, |buf|, result));
        completions := completions + [Completion(callback, id, block * BLOCK_SIZE, |buf|, result)];
      }
      storageError := false;
    }

    /** Takes in one block that was downloaded. `at` is the place in the list that its expiry time gives the piece. */
    method WriteBlock(id: nat, block: nat, buf: seq<Byte>, callback: nat, at: nat, lineSize: nat, algorithm: Algorithm)
      requires Valid() && id in disk && at <= |pieces|
      requires block < NumBlocks(|disk[id]|) && |buf| == BlockLength(|disk[id]|, block)
      modifies `disk, `log, `storageError, `cacheSize, `blocksWritten, `completions, `pieces, `lost
      ensures forall c: nat | c > 0 :: Dues(c) == old(Dues(c)) + if c == callback then 1 else 0
      ensures Valid() && Stored(old(pieces), old(disk), pieces, disk, id, block, buf, unwritable)
      ensures cacheSize - Total(pieces) == old(cacheSize - Total(pieces))
      ensures (forall k: nat :: !Holds(old(pieces), k, id)) ==>
                && lost == old(lost)
                && if NumBlocks(|old(disk)[id]|) > 1 then
                     && pieces == Inserted(old(pieces), at, FirstEntry(id, NumBlocks(|old(disk)[id]|), block, buf, callback))
                     && log == old(log) && completions == old(completions)
                   else
                     && pieces == old(pieces) && log == old(log) + [WriteOp(id, block * BLOCK_SIZE, buf)]
                     && exists result: int :: (result == -1 || result == |buf|) && completions == old(completions)
                          + if callback == 0 then [] else [Completion(callback, id, block * BLOCK_SIZE, |buf|, result)]
      ensures forall k: nat | Holds(old(pieces), k, id) ::
                var place, rest, e := if at < |old(pieces)| then at else |old(pieces)| - 1, Without(old(pieces), k),
                                      PutIn(old(pieces)[k], block, buf, callback);
                && place <= |rest| && lost == old(lost) + Replaced(old(pieces)[k], block)
                && if algorithm == AvoidReadback
                   then log == old(log) + LineWrite(e, lineSize) && pieces == Inserted(rest, place, AfterLine(e, lineSize))
                   else
                     var e' := AfterLongLine(e, lineSize);
                     && log == old(log) + LongLineWrite(e, lineSize)
                     && pieces == if e'.numBlocks == 0 && e'.nextToHash == 0 then rest else Inserted(rest, place, e')
    {
      hide EntriesOk, Total, Inserted, Without, Stored, SameContent, EntryOk, NumBlocks, BlockLength, Holds, PutIn, AfterLine, LineWrite,
           FirstEntry, AfterLongLine, LongLineWrite, Dues, Replaced;
      ghost var pieces0, disk0 := pieces, disk;
      var k := FindCachedPiece(id);
      HeldAt(pieces, disk, id, k);
      if k < |pieces| {
        var place := if at < |pieces| then at else |pieces| - 1;
        WriteHeld(k, block, buf, callback, place, lineSize, algorithm);
      } else {
        var cached := CacheBlock(id, block, buf, callback, at);
        if cached {
          StoredMore(pieces0, disk0, pieces, disk, id, block, buf, unwritable);
        } else {
          ghost var written := WriteDirect(id, block, buf, callback);
        }
      }
    }

    /** Any run of jobs, whichever blocks go first. A piece to which every write succeeds reads as if each job had written
        through. */
    method Serve(jobs: seq<Job>, algorithm: Algorithm, lineSize: nat) returns (outOfRange: bool)
      requires Valid() && forall k | 0 <= k < |jobs| :: JobOk(jobs[k], disk)
      modifies `disk, `log, `storageError, `cacheSize, `blocksWritten, `completions, `pieces, `lost
      ensures forall c: nat | c > 0 :: Dues(c) == old(Dues(c)) + Given(jobs, c)
      ensures Valid() && Served(old(pieces), old(disk), pieces, disk, jobs, unwritable)
      ensures cacheSize - Total(pieces) == old(cacheSize - Total(pieces))
      ensures outOfRange ==> algorithm == AvoidReadback && exists k :: 0 <= k < |jobs| && jobs[k].MakeRoom?
      ensures |jobs| == 1 && jobs[0].MakeRoom? ==>
                (outOfRange <==>
                   algorithm == AvoidReadback && jobs[0].blocks > 0 && old(cacheSize) > 0 && PastEnd(old(pieces), jobs[0].blocks))
    {
      outOfRange := false;
      hide EntriesOk, EntryOk, Total, Stored, SameContent, Content, NumBlocks, BlockLength, SameSizes, Dues, Given, Holds, Replaced,
           PastEnd, HashedFirst, UsedFirst, LongestFirst, RunsFirst;
      GivenNone(jobs);
      ghost var pieces0, disk0 := pieces, disk;
      ServedNone(pieces, disk, jobs, unwritable);
      var k := 0;
      while k < |jobs|
        invariant outOfRange ==> algorithm == AvoidReadback && exists j :: 0 <= j < k && j < |jobs| && jobs[j].MakeRoom?
        invariant k == 0 ==> pieces == pieces0 && cacheSize == old(cacheSize) && !outOfRange
        invariant |jobs| == k == 1 && jobs[0].MakeRoom? ==>
                    (outOfRange <==>
                       algorithm == AvoidReadback && jobs[0].blocks > 0 && old(cacheSize) > 0 && PastEnd(pieces0, jobs[0].blocks))
        invariant k <= |jobs| && Valid() && Served(pieces0, disk0, pieces, disk, jobs[..k], unwritable)
        invariant cacheSize - Total(pieces) == old(cacheSize - Total(pieces))
        invariant forall c: nat | c > 0 :: Dues(c) == old(Dues(c)) + Given(jobs[..k], c)
      {
        ghost var pieces1, disk1 := pieces, disk;
        GivenMore(jobs, k);
        SameJob(jobs[k], disk0, disk);
        match jobs[k] {
          case WriteJob(id, block, buf, callback) =>
            var at :| 0 <= at <= |pieces|;
            WriteBlock(id, block, buf, callback, at, lineSize, algorithm);
          case MakeRoom(blocks) =>
            var _, behind := FlushCacheBlocks(blocks, algorithm);
            outOfRange := outOfRange || behind;
        }
        ServedMore(pieces0, disk0, pieces1, disk1, pieces, disk, jobs, k, unwritable);
        k := k + 1;
      }
      assert jobs[..|jobs|] == jobs;
    }
  }
}
