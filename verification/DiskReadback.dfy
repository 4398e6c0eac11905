/** Flushing the blocks that are about to be hashed, so that they need not be read back. */
module DiskReadback {
  import opened Common
  import opened DiskBlocks
  import opened DiskEntries
  import opened DiskPieces
  import opened DiskRuns

  /** The number of cached blocks from the hashing position on, up to the first gap. */
  function HashRun(e: Entry): nat {
    if e.nextToHash <= |e.blocks| then RunEnd(e.blocks, e.nextToHash, |e.blocks|) - e.nextToHash else 0
  }

  function HashRuns(pieces: seq<Entry>): nat {
    if pieces == [] then 0 else HashRuns(pieces[..|pieces| - 1]) + HashRun(pieces[|pieces| - 1])
  }

  /** An entry after its run at the hashing position was flushed. */
  function HashFlushed(e: Entry): Entry
    requires e.nextToHash <= |e.blocks|
  {
    var end := e.nextToHash + HashRun(e);
    var blocks := Released(e.blocks, e.nextToHash, end);
    Entry(e.id, blocks, e.numBlocks - HashRun(e), LongestRun(blocks, |blocks|), end)
  }

  /** The one write that flushes it. */
  ghost function HashWrite(e: Entry): seq<WriteOp> {
    if HashRun(e) == 0 then []
    else [WriteOp(e.id, e.nextToHash * BLOCK_SIZE, RunData(e.blocks, e.nextToHash, e.nextToHash + HashRun(e)))]
  }

  ghost function HashWrites(pieces: seq<Entry>): seq<WriteOp> {
    if pieces == [] then [] else HashWrites(pieces[..|pieces| - 1]) + HashWrite(pieces[|pieces| - 1])
  }

  /** What is left of an entry: nothing if all of its piece is hashed. */
  function Left(e: Entry): seq<Entry> {
    if HashRun(e) == 0 then [e]
    else
      var e' := HashFlushed(e);
      if e'.numBlocks == 0 && e'.nextToHash == |e'.blocks| then [] else [e']
  }

  function AllLeft(pieces: seq<Entry>): seq<Entry> {
    if pieces == [] then [] else AllLeft(pieces[..|pieces| - 1]) + Left(pieces[|pieces| - 1])
  }

  /** The hashing position is behind the last slot. */
  predicate Hashed(e: Entry) {
    e.nextToHash == |e.blocks|
  }

  /** Looking for blocks to flush before they are hashed comes to a piece that has none left to hash. */
  ghost predicate PastEnd(pieces: seq<Entry>, blocks: nat) {
    exists k: nat :: k < |pieces| && Hashed(pieces[k]) && HashRuns(pieces[..k]) < blocks
  }

  /** Of the pieces in order of use, as many as it takes to find enough blocks have had the runs written that are about to
      be hashed, one write each. Only when that is not enough, longest runs of what is left were written next. */
  ghost predicate HashedFirst(before: seq<Entry>, log: seq<WriteOp>, after: seq<Entry>, log': seq<WriteOp>, blocks: nat,
                              ret: nat, outOfRange: bool, k: nat) {
    && k <= |before| && (k == |before| || HashRuns(before[..k]) >= blocks) && (k > 0 ==> HashRuns(before[..k - 1]) < blocks)
    && ret >= HashRuns(before[..k])
    && var log1 := log + HashWrites(before[..k]);
       && LongestFirst(log1, after, log', blocks - HashRuns(before[..k]), ret - HashRuns(before[..k]))
       && (HashRuns(before[..k]) >= blocks ==> log' == log1 && (!outOfRange ==> after == AllLeft(before[..k]) + before[k..]))
       && (!outOfRange ==>
             && EmptiesStay(AllLeft(before[..k]) + before[k..], after, true)
             && var rest, left, more := AllLeft(before[..k]) + before[k..], blocks - HashRuns(before[..k]), ret - HashRuns(before[..k]);
                exists n: nat :: RunsFirst(rest, log1, after, log', left, more, n))
  }

  lemma HashMore(pieces: seq<Entry>, k: nat)
    requires k < |pieces|
    ensures HashRuns(pieces[..k + 1]) == HashRuns(pieces[..k]) + HashRun(pieces[k])
    ensures HashWrites(pieces[..k + 1]) == HashWrites(pieces[..k]) + HashWrite(pieces[k])
    ensures AllLeft(pieces[..k + 1]) == AllLeft(pieces[..k]) + Left(pieces[k])
  {
    assert pieces[..k + 1][..k] == pieces[..k];
  }

  lemma {:induction false} HashRunsGrow(pieces: seq<Entry>, j: nat, k: nat)
    requires j <= k <= |pieces|
    ensures HashRuns(pieces[..j]) <= HashRuns(pieces[..k])
  {
    hide *;
    if j < k {
      var m := k - 1;
      HashRunsGrow(pieces, j, m);
      HashMore(pieces, m);
    }
  }

  /** The pieces that are looked at are those before which too little was found. */
  lemma PastEndIs(pieces: seq<Entry>, blocks: nat, k: nat)
    requires k <= |pieces| && (k == |pieces| || HashRuns(pieces[..k]) >= blocks)
    requires k > 0 ==> HashRuns(pieces[..k - 1]) < blocks
    ensures PastEnd(pieces, blocks) <==> exists j: nat :: j < k && Hashed(pieces[j])
  {
    hide Hashed, HashRuns;
    forall j: nat | j < |pieces|
      ensures HashRuns(pieces[..j]) < blocks <==> j < k
    {
      if j < k { HashRunsGrow(pieces, j, k - 1); } else { HashRunsGrow(pieces, k, j); }
    }
  }

  lemma HashRunIs(e: Entry)
    requires e.nextToHash <= |e.blocks|
    ensures e.nextToHash + HashRun(e) == RunEnd(e.blocks, e.nextToHash, |e.blocks|) <= |e.blocks|
    ensures AllCached(e.blocks, e.nextToHash, e.nextToHash + HashRun(e))
  {
  }

  /** Flushing the run at the hashing position makes exactly that of the entry, whether or not the write succeeds. */
  lemma FlushedHash(e: Entry, d: seq<Byte>, e': Entry, d': seq<Byte>, end: nat, ret: nat, failed: bool)
    requires e.nextToHash <= |e.blocks| && HashRun(e) > 0 && end == e.nextToHash + HashRun(e)
    requires FlushOf(e, d, e', d', e.nextToHash, end, ret, failed)
    ensures e' == HashFlushed(e) && ret == HashRun(e)
    ensures Writes(e.blocks, e.id, First(e, e.nextToHash, end), Limit(e, end)) == HashWrite(e)
  {
    hide *;
    HashRunIs(e);
    FlushParts(e, d, e', d', e.nextToHash, end, ret, failed);
    RunCount(e.blocks, e.nextToHash, end);
    NextToHashIs(e.blocks, e.nextToHash, e.nextToHash, end);
    RunEndIs(e.blocks, e.nextToHash, end, end);
    RunIsOneWrite(e.blocks, e.id, e.nextToHash, end);
    HashFlushedIs(e, e', end);
  }

  lemma HashFlushedIs(e: Entry, e': Entry, end: nat)
    requires e.nextToHash <= end <= |e.blocks| && HashRun(e) > 0 && end == e.nextToHash + HashRun(e)
    ensures HashWrite(e) == [WriteOp(e.id, e.nextToHash * BLOCK_SIZE, RunData(e.blocks, e.nextToHash, end))]
    ensures e' == Entry(e.id, Released(e.blocks, e.nextToHash, end), e.numBlocks - HashRun(e), LongestRun(e'.blocks, |e'.blocks|), end)
            ==> e' == HashFlushed(e)
  {
    hide HashRun, LongestRun, Released, RunData;
  }

  /** A flush behind the last slot changes nothing. */
  lemma FlushedNothing(e: Entry, d: seq<Byte>, e': Entry, d': seq<Byte>, ret: nat, failed: bool)
    requires EntryOk(e, |d|) && Hashed(e) && FlushOf(e, d, e', d', e.nextToHash, e.nextToHash + 1, ret, failed)
    ensures e' == e && ret == 0 == HashRun(e) && HashWrite(e) == []
    ensures Writes(e.blocks, e.id, First(e, e.nextToHash, e.nextToHash + 1), Limit(e, e.nextToHash + 1)) == []
  {
    assert e'.blocks == e.blocks;
  }

  /** The hashing position of an entry whose blocks fit the piece. */
  lemma HashParts(e: Entry, size: nat)
    requires EntryOk(e, size)
    ensures e.nextToHash <= |e.blocks| && (Hashed(e) <==> e.nextToHash == |e.blocks|)
    ensures e.nextToHash == |e.blocks| || e.blocks[e.nextToHash].buf.None? ==>
              HashRun(e) == 0 && HashWrite(e) == [] && Left(e) == [e]
  {
  }

  lemma HashEnd(e: Entry, end: nat)
    requires e.nextToHash < end <= |e.blocks| ==>
               (forall j | e.nextToHash <= j < end :: e.blocks[j].buf.Some?) && (end == |e.blocks| || e.blocks[end].buf.None?)
    ensures e.nextToHash < end <= |e.blocks| ==> end == e.nextToHash + HashRun(e)
  {
    if e.nextToHash < end <= |e.blocks| {
      RunEndIs(e.blocks, e.nextToHash, end, |e.blocks|);
    }
  }

  /** The entry after the flush at the hashing position. */
  lemma FlushedAtHash(e: Entry, d: seq<Byte>, e': Entry, d': seq<Byte>, end: nat, ret: nat, failed: bool)
    requires EntryOk(e, |d|) && FlushOf(e, d, e', d', e.nextToHash, end, ret, failed)
    requires if Hashed(e) then end == e.nextToHash + 1 else e.nextToHash < end == e.nextToHash + HashRun(e)
    ensures ret == HashRun(e) && Writes(e.blocks, e.id, First(e, e.nextToHash, end), Limit(e, end)) == HashWrite(e)
    ensures e'.numContiguous == LongestRun(e'.blocks, |e'.blocks|)
    ensures if Hashed(e) then e' == e
            else Left(e) == if e'.numBlocks == 0 && e'.nextToHash == |e'.blocks| then [] else [e']
  {
    hide LongestRun, HashRun, HashFlushed, Writes, HashWrite, CountCached, Buffers, Flushed, Emptied, SameOverlay, NextToHash;
    HashParts(e, |d|);
    if Hashed(e) {
      FlushedNothing(e, d, e', d', ret, failed);
    } else {
      FlushedHash(e, d, e', d', end, ret, failed);
    }
  }

  lemma WithoutReplaced(pieces: seq<Entry>, k: nat, e: Entry)
    requires k < |pieces|
    ensures Without(pieces[k := e], k) == Without(pieces, k)
  {
  }

  lemma HashNone(pieces: seq<Entry>)
    ensures pieces[..0] == [] && HashRuns([]) == 0 && HashWrites([]) == [] && AllLeft([]) == []
  {
  }

  /** One piece was looked at, and may be gone. */
  lemma FlushedOne(pieces: seq<Entry>, pieces': seq<Entry>, i: nat, dropped: bool)
    requires i < |pieces|
    requires if dropped then pieces' == Without(pieces, i) else |pieces'| == |pieces| && pieces' == pieces[i := pieces'[i]]
    ensures |pieces'| == if dropped then |pieces| - 1 else |pieces|
    ensures if dropped then pieces'[i..] == pieces[i + 1..] && pieces'[..i] == pieces[..i]
            else pieces'[i + 1..] == pieces[i + 1..] && pieces'[..i + 1] == pieces[..i] + [pieces'[i]]
  {
  }

  /** With the longest run empty there are no dirty blocks. */
  lemma NoRunsNoTotal(pieces: seq<Entry>, disk: map<nat, seq<Byte>>, k: nat)
    requires EntriesOk(pieces, disk) && k < |pieces| && pieces[k].numBlocks == 0
    requires forall j | 0 <= j < |pieces| :: pieces[j].numContiguous <= pieces[k].numContiguous
    ensures Total(pieces) == 0
  {
    hide EntryOk, Total;
    EntryAt(pieces, disk, k);
    NoRunNoCount(pieces[k], |disk[pieces[k].id]|);
    forall j | 0 <= j < |pieces|
      ensures pieces[j].numBlocks == 0
    {
      EntryAt(pieces, disk, j);
      NoRunNoCount(pieces[j], |disk[pieces[j].id]|);
    }
    NoBlocksNoTotal(pieces);
  }

  lemma {:induction false} NoBlocksNoTotal(pieces: seq<Entry>)
    requires forall j | 0 <= j < |pieces| :: pieces[j].numBlocks == 0
    ensures Total(pieces) == 0
  {
    if pieces != [] { NoBlocksNoTotal(pieces[1..]); }
  }

  /** The entry after a block was put in. */
  function PutIn(e: Entry, block: nat, buf: seq<Byte>, callback: nat): Entry {
    if block >= |e.blocks| then e
    else
      var blocks := Put(e.blocks, block, buf, callback);
      Entry(e.id, blocks, e.numBlocks + if e.blocks[block].Cached() then 0 else 1, LongestRun(blocks, |blocks|), e.nextToHash)
  }

  /** The entry of a piece that gets its first block. */
  function FirstEntry(id: nat, n: nat, block: nat, buf: seq<Byte>, callback: nat): Entry
    requires block < n
  {
    Entry(id, Put(seq(n, _ => EMPTY_BLOCK), block, buf, callback), 1, 1, 0)
  }

  /** Whether the run at the hashing position is long enough to go to disk. */
  predicate LongEnough(e: Entry, lineSize: nat) {
    HashRun(e) > 0 && HashRun(e) >= lineSize
  }

  function AfterLine(e: Entry, lineSize: nat): Entry {
    if LongEnough(e, lineSize) && e.nextToHash <= |e.blocks| then HashFlushed(e) else e
  }

  ghost function LineWrite(e: Entry, lineSize: nat): seq<WriteOp> {
    if LongEnough(e, lineSize) then HashWrite(e) else []
  }

  /** Flushing the run at the hashing position only if it is long enough. */
  lemma LineFlushed(e: Entry, d: seq<Byte>, e': Entry, d': seq<Byte>, ret: nat, failed: bool, lineSize: nat)
    requires e.nextToHash <= |e.blocks| && ret == if LongEnough(e, lineSize) then HashRun(e) else 0
    requires if ret == 0 then e' == e else FlushOf(e, d, e', d', e.nextToHash, e.nextToHash + ret, ret, failed)
    ensures e' == AfterLine(e, lineSize) && (ret > 0 <==> LongEnough(e, lineSize))
    ensures ret > 0 ==>
              && e.nextToHash + ret <= |e.blocks| && AllCached(e.blocks, e.nextToHash, e.nextToHash + ret)
              && LineWrite(e, lineSize) == [WriteOp(e.id, e.nextToHash * BLOCK_SIZE, RunData(e.blocks, e.nextToHash, e.nextToHash + ret))]
    ensures ret == 0 ==> LineWrite(e, lineSize) == []
  {
    hide RunEnd, FlushOf, HashFlushed, RunData;
    HashRunIs(e);
    if ret > 0 {
      FlushedHash(e, d, e', d', e.nextToHash + ret, ret, failed);
    }
  }

  lemma RunIsHashRun(e: Entry)
    requires e.nextToHash <= |e.blocks|
    ensures HashRun(e) == RunEnd(e.blocks, e.nextToHash, |e.blocks|) - e.nextToHash
  {
  }

  /** A block put in leaves a run, so a flush at the hashing position never makes a piece look untouched. */
  lemma LineKeeps(e: Entry, size: nat, block: nat, buf: seq<Byte>, callback: nat, lineSize: nat)
    requires EntryOk(e, size) && block < |e.blocks|
    ensures var e' := AfterLine(PutIn(e, block, buf, callback), lineSize); !(e'.numBlocks == 0 && e'.nextToHash == 0)
  {
    hide LongestRun, RunEnd, Buffers, Put;
    PutCount(e.blocks, block, buf, callback);
    SomeCached(e.blocks, block);
  }

  lemma SomeCached(blocks: seq<Block>, i: nat)
    requires i < |blocks|
    ensures blocks[i].Cached() ==> CountCached(blocks, 0, |blocks|) > 0
  {
    CountSplits(blocks, 0, i, |blocks|);
    CountSplits(blocks, i, i + 1, |blocks|);
    assert CountCached(blocks, i, i) == 0;
  }

  lemma PutInIs(e: Entry, e': Entry, size: nat, block: nat, buf: seq<Byte>, callback: nat)
    requires block < |e.blocks| && EntryOk(e', size) && e'.blocks == Put(e.blocks, block, buf, callback)
    requires e' == e.(blocks := e'.blocks, numContiguous := e'.numContiguous,
                      numBlocks := e.numBlocks + if e.blocks[block].Cached() then 0 else 1)
    ensures e' == PutIn(e, block, buf, callback)
  {
    hide LongestRun, CountCached, Buffers;
  }

  lemma InsertedDropped(pieces: seq<Entry>, k: nat, e: Entry)
    requires k <= |pieces|
    ensures k < |Inserted(pieces, k, e)| && Without(Inserted(pieces, k, e), k) == pieces
  {
  }

  lemma InsertedReplaced(pieces: seq<Entry>, k: nat, e: Entry, e': Entry)
    requires k <= |pieces|
    ensures k < |Inserted(pieces, k, e)| && Inserted(pieces, k, e)[k] == e && Inserted(pieces, k, e)[k := e'] == Inserted(pieces, k, e')
  {
  }

  /** A piece that was found is held there and nowhere else. */
  lemma HeldAt(pieces: seq<Entry>, disk: map<nat, seq<Byte>>, id: nat, k: nat)
    requires EntriesOk(pieces, disk) && k <= |pieces| && (k < |pieces| ==> pieces[k].id == id)
    ensures k < |pieces| ==> Holds(pieces, k, id) && forall j: nat :: Holds(pieces, j, id) ==> j == k
    ensures forall j: nat :: Holds(pieces, j, id) ==> |Without(pieces, j)| == |pieces| - 1
  {
    hide EntryOk;
  }

  lemma HashedFirstIs(before: seq<Entry>, log: seq<WriteOp>, after: seq<Entry>, log': seq<WriteOp>, blocks: nat,
                      ret: nat, outOfRange: bool, k: nat, log1: seq<WriteOp>, n: nat)
    requires k <= |before| && (k == |before| || HashRuns(before[..k]) >= blocks) && (k > 0 ==> HashRuns(before[..k - 1]) < blocks)
    requires log1 == log + HashWrites(before[..k]) && ret >= HashRuns(before[..k])
    requires LongestFirst(log1, after, log', blocks - HashRuns(before[..k]), ret - HashRuns(before[..k]))
    requires HashRuns(before[..k]) >= blocks ==> log' == log1 && (!outOfRange ==> after == AllLeft(before[..k]) + before[k..])
    requires !outOfRange ==>
               && EmptiesStay(AllLeft(before[..k]) + before[k..], after, true)
               && RunsFirst(AllLeft(before[..k]) + before[k..], log1, after, log', blocks - HashRuns(before[..k]),
                            ret - HashRuns(before[..k]), n)
    ensures HashedFirst(before, log, after, log', blocks, ret, outOfRange, k)
  {
    hide HashRuns, HashWrites, AllLeft, LongestFirst, EmptiesStay, RunsFirst;
  }

  lemma PutDone(e: Entry, block: nat, buf: seq<Byte>, callback: nat)
    requires block < |e.blocks|
    ensures Put(e.blocks, block, buf, callback) == e.blocks[block := Block(Some(buf), callback)]
    ensures Recount(e, block) <==>
              && !e.blocks[block].Cached()
              && ((block > 0 && e.blocks[block - 1].Cached()) || (block + 1 < |e.blocks| && e.blocks[block + 1].Cached())
                  || e.numBlocks == 0)
  {
  }
}
