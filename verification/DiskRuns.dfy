/** Flushing longest runs: which run goes, and what is left of the list. */
module DiskRuns {
  import opened Common
  import opened DiskBlocks
  import opened DiskEntries
  import opened DiskPieces

  /** The buffers of a range were let go. */
  function Released(blocks: seq<Block>, from: nat, end: nat): (r: seq<Block>)
    requires from <= end <= |blocks|
    ensures |r| == |blocks|
  {
    seq(|blocks|, i requires 0 <= i < |blocks| => if from <= i < end && blocks[i].Cached() then EMPTY_BLOCK else blocks[i])
  }

  /** An entry after the cached blocks of a range were flushed. */
  function RangeFlushed(e: Entry, from: nat, end: nat): Entry
    requires from <= end <= |e.blocks|
  {
    var blocks := Released(e.blocks, from, end);
    Entry(e.id, blocks, e.numBlocks - CountCached(e.blocks, from, end), LongestRun(blocks, |blocks|),
          NextToHash(e.blocks, e.nextToHash, from, end))
  }

  lemma FlushParts(e: Entry, d: seq<Byte>, e': Entry, d': seq<Byte>, start: nat, end: nat, ret: nat, failed: bool)
    requires FlushOf(e, d, e', d', start, end, ret, failed) && start <= end <= |e.blocks|
    ensures First(e, start, end) == start && Limit(e, end) == end && e'.id == e.id
    ensures e'.blocks == Released(e.blocks, start, end) && ret == CountCached(e.blocks, start, end) && e'.numBlocks == e.numBlocks - ret
    ensures e'.nextToHash == NextToHash(e.blocks, e.nextToHash, start, end)
    ensures e'.numContiguous == LongestRun(e'.blocks, |e'.blocks|)
  {
    hide SameOverlay, Flushed, LongestRun, CountCached, NextToHash, Buffers;
  }

  /** The run of n blocks from pos on is cached, and none before it is. */
  predicate FirstRun(blocks: seq<Block>, pos: nat, n: nat) {
    IsRun(blocks, pos, n) && forall p: nat | p < pos :: !IsRun(blocks, p, n)
  }

  predicate IsRun(blocks: seq<Block>, pos: nat, n: nat) {
    pos + n <= |blocks| && AllCached(blocks, pos, pos + n)
  }

  /** The first place from p on where a run of n cached blocks starts, or the end. */
  function RunFrom(blocks: seq<Block>, p: nat, n: nat): (r: nat)
    requires p <= |blocks|
    ensures p <= r <= |blocks| && (r + n <= |blocks| ==> AllCached(blocks, r, r + n))
    decreases |blocks| - p
  {
    if IsRun(blocks, p, n) || p == |blocks| then p else RunFrom(blocks, p + 1, n)
  }

  lemma {:induction false} RunFromIs(blocks: seq<Block>, p: nat, pos: nat, n: nat)
    requires FirstRun(blocks, pos, n) && p <= pos
    ensures RunFrom(blocks, p, n) == pos
    decreases pos - p
  {
    if p < pos { RunFromIs(blocks, p + 1, pos, n); }
  }

  /** Scanning for the longest run: the run that ends before i starts at `start`, so no longer one starts further down. */
  lemma RunStarts(blocks: seq<Block>, i: nat, start: nat, current: nat, length: nat)
    requires i <= |blocks| && start + current == i && current == RunBefore(blocks, i) && length == LongestRun(blocks, start)
    ensures current > length ==> FirstRun(blocks, start, current)
  {
    forall p: nat | p < start
      ensures current > length ==> !IsRun(blocks, p, current)
    {
      if IsRun(blocks, p, current) && p + current <= start {
        LongestRunBounds(blocks, start, p, p + current);
      }
    }
  }

  lemma RunStep(blocks: seq<Block>, i: nat)
    requires i < |blocks|
    ensures RunBefore(blocks, i + 1) == if blocks[i].Cached() then RunBefore(blocks, i) + 1 else 0
    ensures LongestRun(blocks, i + 1)
            == if RunBefore(blocks, i + 1) > LongestRun(blocks, i) then RunBefore(blocks, i + 1) else LongestRun(blocks, i)
    ensures RunBefore(blocks, i) <= LongestRun(blocks, i)
  {
    LongestRunBounds(blocks, i, i - RunBefore(blocks, i), i);
  }

  lemma RunNone(blocks: seq<Block>)
    ensures RunBefore(blocks, 0) == LongestRun(blocks, 0) == 0
  {
  }

  lemma FirstCached(blocks: seq<Block>, pos: nat, n: nat)
    ensures n > 0 && FirstRun(blocks, pos, n) ==> pos + n <= |blocks| && AllCached(blocks, pos, pos + n)
  {
  }

  /** An entry after its longest run, the first one of that length, was flushed. */
  function RunFlushed(e: Entry): Entry {
    var n := LongestRun(e.blocks, |e.blocks|);
    var pos := RunFrom(e.blocks, 0, n);
    if n == 0 || pos + n > |e.blocks| then e else RangeFlushed(e, pos, pos + n)
  }

  /** The one write that flushes it. */
  ghost function RunWrite(e: Entry): seq<WriteOp> {
    var n := LongestRun(e.blocks, |e.blocks|);
    var pos := RunFrom(e.blocks, 0, n);
    if n == 0 || pos + n > |e.blocks| then [] else [WriteOp(e.id, pos * BLOCK_SIZE, RunData(e.blocks, pos, pos + n))]
  }

  lemma FlushedRun(e: Entry, d: seq<Byte>, e': Entry, d': seq<Byte>, pos: nat, n: nat, failed: bool)
    requires n == LongestRun(e.blocks, |e.blocks|) > 0 && FirstRun(e.blocks, pos, n)
    requires FlushOf(e, d, e', d', pos, pos + n, n, failed)
    ensures e' == RunFlushed(e) && RunWrite(e) == [WriteOp(e.id, pos * BLOCK_SIZE, RunData(e.blocks, pos, pos + n))]
  {
    hide *;
    FirstIsRun(e.blocks, pos, n);
    RunFromIs(e.blocks, 0, pos, n);
    FlushParts(e, d, e', d', pos, pos + n, n, failed);
    RunFlushedIs(e, e', pos, n);
  }

  lemma FirstIsRun(blocks: seq<Block>, pos: nat, n: nat)
    requires FirstRun(blocks, pos, n)
    ensures IsRun(blocks, pos, n) && pos + n <= |blocks| && AllCached(blocks, pos, pos + n)
  {
  }

  lemma RunFlushedIs(e: Entry, e': Entry, pos: nat, n: nat)
    requires n == LongestRun(e.blocks, |e.blocks|) > 0 && pos == RunFrom(e.blocks, 0, n) && IsRun(e.blocks, pos, n)
    ensures RunWrite(e) == [WriteOp(e.id, pos * BLOCK_SIZE, RunData(e.blocks, pos, pos + n))]
    ensures e' == Entry(e.id, Released(e.blocks, pos, pos + n), e.numBlocks - CountCached(e.blocks, pos, pos + n),
                        LongestRun(e'.blocks, |e'.blocks|), NextToHash(e.blocks, e.nextToHash, pos, pos + n))
            ==> e' == RunFlushed(e)
  {
    hide LongestRun, Released, CountCached, NextToHash, RunData, RunFrom;
  }

  /** With only long enough runs flushed. */
  function AfterLongLine(e: Entry, lineSize: nat): Entry {
    if LongestRun(e.blocks, |e.blocks|) < lineSize then e else RunFlushed(e)
  }

  ghost function LongLineWrite(e: Entry, lineSize: nat): seq<WriteOp> {
    if LongestRun(e.blocks, |e.blocks|) < lineSize then [] else RunWrite(e)
  }

  lemma LongLine(e: Entry, d: seq<Byte>, e': Entry, d': seq<Byte>, pos: nat, ret: nat, failed: bool, lineSize: nat)
    requires var n := LongestRun(e.blocks, |e.blocks|); ret == if n < lineSize then 0 else n
    requires ret == 0 ==> e' == e
    requires ret > 0 ==> FirstRun(e.blocks, pos, ret) && FlushOf(e, d, e', d', pos, pos + ret, ret, failed)
    ensures e' == AfterLongLine(e, lineSize)
    ensures ret == 0 ==> LongLineWrite(e, lineSize) == []
    ensures ret > 0 ==> LongLineWrite(e, lineSize) == [WriteOp(e.id, pos * BLOCK_SIZE, RunData(e.blocks, pos, pos + ret))]
  {
    hide FlushOf, LongestRun, RunData, RunFrom, FirstRun, RangeFlushed;
    if ret > 0 { FlushedRun(e, d, e', d', pos, ret, failed); }
  }

  /** The first piece with the longest run. */
  function Most(pieces: seq<Entry>): (k: nat)
    ensures pieces != [] ==> k < |pieces|
  {
    if |pieces| <= 1 then 0
    else
      var n, k := |pieces| - 1, Most(pieces[..|pieces| - 1]);
      if pieces[k].numContiguous < pieces[n].numContiguous then n else k
  }

  lemma {:induction false} MostIs(pieces: seq<Entry>, k: nat)
    requires k < |pieces| && (forall j | 0 <= j < |pieces| :: pieces[j].numContiguous <= pieces[k].numContiguous)
    requires forall j | 0 <= j < k :: pieces[j].numContiguous < pieces[k].numContiguous
    ensures Most(pieces) == k
  {
    if |pieces| > 1 {
      var n := |pieces| - 1;
      if k < n { MostIs(pieces[..n], k); } else { assert Most(pieces[..n]) < n; }
    }
  }

  /** The list after the longest run of all was flushed; a piece of which nothing is left goes. */
  function AfterRun(pieces: seq<Entry>): seq<Entry> {
    if pieces == [] then []
    else
      var k := Most(pieces);
      var e := RunFlushed(pieces[k]);
      if e.numBlocks == 0 then Without(pieces[k := e], k) else pieces[k := e]
  }

  function AfterRuns(pieces: seq<Entry>, n: nat): seq<Entry> {
    if n == 0 then pieces else AfterRun(AfterRuns(pieces, n - 1))
  }

  /** The writes of n rounds, and the blocks they cover. */
  ghost function RunsWrites(pieces: seq<Entry>, n: nat): seq<WriteOp> {
    if n == 0 then []
    else
      var before := AfterRuns(pieces, n - 1);
      RunsWrites(pieces, n - 1) + if before == [] then [] else RunWrite(before[Most(before)])
  }

  function RunsBlocks(pieces: seq<Entry>, n: nat): nat {
    if n == 0 then 0
    else
      var before := AfterRuns(pieces, n - 1);
      RunsBlocks(pieces, n - 1) + if before == [] then 0 else LongestRun(before[Most(before)].blocks, |before[Most(before)].blocks|)
  }

  /** Longest runs were flushed, round by round, exactly as many as it takes to find enough blocks. */
  ghost predicate RunsFirst(before: seq<Entry>, log: seq<WriteOp>, after: seq<Entry>, log': seq<WriteOp>, blocks: int, ret: nat, n: nat) {
    && after == AfterRuns(before, n) && log' == log + RunsWrites(before, n) && ret == RunsBlocks(before, n)
    && (n > 0 ==> RunsBlocks(before, n - 1) < blocks)
  }

  /** One more round. */
  ghost predicate Rounded(before: seq<Entry>, log: seq<WriteOp>, after: seq<Entry>, log': seq<WriteOp>, ret: nat) {
    && before != [] && after == AfterRun(before)
    && var e := before[Most(before)];
       log' == log + RunWrite(e) && ret == LongestRun(e.blocks, |e.blocks|)
  }

  lemma RunsMore(before: seq<Entry>, log: seq<WriteOp>, pieces: seq<Entry>, log1: seq<WriteOp>, after: seq<Entry>, log': seq<WriteOp>,
                 blocks: int, ret: nat, n: nat, removed: nat)
    requires RunsFirst(before, log, pieces, log1, blocks, ret, n) && ret < blocks && Rounded(pieces, log1, after, log', removed)
    ensures RunsFirst(before, log, after, log', blocks, ret + removed, n + 1)
  {
    hide AfterRun, RunWrite, Most, LongestRun;
  }

  lemma RoundIs(before: seq<Entry>, log: seq<WriteOp>, k: nat, e: Entry, after: seq<Entry>, log': seq<WriteOp>, ret: nat)
    requires k < |before| && k == Most(before) && e == RunFlushed(before[k])
    requires after == if e.numBlocks == 0 then Without(before[k := e], k) else before[k := e]
    requires log' == log + RunWrite(before[k]) && ret == LongestRun(before[k].blocks, |before[k].blocks|)
    ensures Rounded(before, log, after, log', ret)
  {
    hide RunFlushed, RunWrite, Most, LongestRun;
  }

  lemma NoRounds(pieces: seq<Entry>, log: seq<WriteOp>, blocks: int)
    ensures RunsFirst(pieces, log, pieces, log, blocks, 0, 0)
  {
  }

  lemma LineOfNone(e: Entry)
    ensures AfterLongLine(e, 0) == RunFlushed(e) && LongLineWrite(e, 0) == RunWrite(e)
  {
  }
}
