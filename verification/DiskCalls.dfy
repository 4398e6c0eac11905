/** What becomes of the callbacks of the blocks that were handed to the cache. */
module DiskCalls {
  import opened Common
  import opened DiskBlocks
  import opened DiskEntries
  import opened DiskPieces

  /** How many blocks wait in memory with a callback. */
  function Call(b: Block, callback: nat): nat {
    if b.Cached() && b.callback == callback then 1 else 0
  }

  ghost function Calls(blocks: seq<Block>, callback: nat): nat {
    if blocks == [] then 0 else Calls(blocks[..|blocks| - 1], callback) + Call(blocks[|blocks| - 1], callback)
  }

  /** How often a callback is still to be posted. */
  ghost function Due(pieces: seq<Entry>, callback: nat): nat {
    if pieces == [] then 0 else Due(pieces[..|pieces| - 1], callback) + Calls(pieces[|pieces| - 1].blocks, callback)
  }

  /** How often it was posted. */
  ghost function Told(completions: seq<Completion>, callback: nat): nat {
    if completions == [] then 0
    else Told(completions[..|completions| - 1], callback) + if completions[|completions| - 1].callback == callback then 1 else 0
  }

  lemma {:induction false} ToldJoins(a: seq<Completion>, b: seq<Completion>, callback: nat)
    ensures Told(a + b, callback) == Told(a, callback) + Told(b, callback)
  {
    if b == [] {
      assert a + b == a;
    } else {
      assert (a + b)[..|a + b| - 1] == a + b[..|b| - 1];
      ToldJoins(a, b[..|b| - 1], callback);
    }
  }

  lemma {:induction false} CallsReplaced(blocks: seq<Block>, i: nat, b: Block, callback: nat)
    requires i < |blocks|
    ensures Calls(blocks[i := b], callback) == Calls(blocks, callback) - Call(blocks[i], callback) + Call(b, callback)
  {
    hide Call;
    var n := |blocks| - 1;
    if i == n {
      assert blocks[i := b][..n] == blocks[..n];
    } else {
      CallsReplaced(blocks[..n], i, b, callback);
      assert blocks[i := b][..n] == blocks[..n][i := b];
    }
  }

  /** Each cached block of a flushed range is posted once, with its own callback, and no other block is. */
  lemma {:induction false} PostedCalls(blocks: seq<Block>, blocks': seq<Block>, size: nat, id: nat, from: nat, end: nat, failed: bool,
                                       callback: nat)
    requires from <= end <= |blocks| && Emptied(blocks, blocks', from, end) && callback > 0
    ensures Calls(blocks', callback) + Told(Posted(blocks, size, id, from, end, failed), callback) == Calls(blocks, callback)
    decreases end - from
  {
    if from == end {
      assert blocks' == blocks;
    } else {
      var k := end - 1;
      PostedCalls(blocks, blocks'[k := blocks[k]], size, id, from, k, failed, callback);
      CallsReplaced(blocks', k, blocks[k], callback);
      PostedLast(blocks, size, id, from, end, failed, callback);
    }
  }

  lemma PostedLast(blocks: seq<Block>, size: nat, id: nat, from: nat, end: nat, failed: bool, callback: nat)
    requires from < end <= |blocks| && callback > 0
    ensures Told(Posted(blocks, size, id, from, end, failed), callback)
            == Told(Posted(blocks, size, id, from, end - 1, failed), callback) + Call(blocks[end - 1], callback)
  {
    var before, posted := Posted(blocks, size, id, from, end - 1, failed), Posted(blocks, size, id, from, end, failed);
    assert posted == before || posted[..|posted| - 1] == before;
  }

  /** The completion of block i. */
  ghost predicate CompletionOf(c: Completion, blocks: seq<Block>, size: nat, id: nat, i: nat, failed: bool) {
    && i < |blocks| && c.id == id && c.offset == i * BLOCK_SIZE && blocks[i].Cached() && blocks[i].callback == c.callback != 0
    && c.size == (if size - i * BLOCK_SIZE < BLOCK_SIZE then size - i * BLOCK_SIZE else BLOCK_SIZE)
    && c.result == if failed then -1 else c.size
  }

  /** What is posted of a range: the completions of those of its cached blocks that have a callback, in block order. */
  lemma {:induction false} PostedIs(blocks: seq<Block>, size: nat, id: nat, from: nat, end: nat, failed: bool) returns (places: seq<nat>)
    requires from <= end <= |blocks|
    ensures var posted := Posted(blocks, size, id, from, end, failed);
      && |places| == |posted| && (forall k | 0 <= k < |posted| :: CompletionOf(posted[k], blocks, size, id, places[k], failed))
      && (forall j, k | 0 <= j < k < |places| :: places[j] < places[k]) && (forall k | 0 <= k < |places| :: from <= places[k] < end)
      && forall i | from <= i < end && blocks[i].Cached() && blocks[i].callback != 0 :: i in places
  {
    if from == end {
      places := [];
    } else {
      places := PostedIs(blocks, size, id, from, end - 1, failed);
      if blocks[end - 1].Cached() && blocks[end - 1].callback != 0 {
        places := places + [end - 1];
      }
    }
  }

  lemma {:induction false} DueJoins(a: seq<Entry>, b: seq<Entry>, callback: nat)
    ensures Due(a + b, callback) == Due(a, callback) + Due(b, callback)
  {
    hide Calls;
    if b == [] {
      assert a + b == a;
    } else {
      assert (a + b)[..|a + b| - 1] == a + b[..|b| - 1];
      DueJoins(a, b[..|b| - 1], callback);
    }
  }

  lemma DueSplits(a: seq<Entry>, e: Entry, b: seq<Entry>, callback: nat)
    ensures Due(a + [e] + b, callback) == Due(a, callback) + Calls(e.blocks, callback) + Due(b, callback)
  {
    hide Calls;
    DueJoins(a + [e], b, callback);
    assert (a + [e])[..|a|] == a;
  }

  lemma DueReplaced(pieces: seq<Entry>, k: nat, e: Entry, callback: nat)
    requires k < |pieces|
    ensures Due(pieces[k := e], callback) == Due(pieces, callback) - Calls(pieces[k].blocks, callback) + Calls(e.blocks, callback)
    ensures Due(Without(pieces, k), callback) == Due(pieces, callback) - Calls(pieces[k].blocks, callback)
  {
    var a, b := pieces[..k], pieces[k + 1..];
    assert pieces == a + [pieces[k]] + b && pieces[k := e] == a + [e] + b;
    DueSplits(a, pieces[k], b, callback);
    DueSplits(a, e, b, callback);
    DueJoins(a, b, callback);
    hide Due, Calls;
  }

  lemma DueInserted(pieces: seq<Entry>, k: nat, e: Entry, callback: nat)
    requires k <= |pieces|
    ensures Due(Inserted(pieces, k, e), callback) == Due(pieces, callback) + Calls(e.blocks, callback)
  {
    var a, b := pieces[..k], pieces[k..];
    assert pieces == a + b && Inserted(pieces, k, e) == a + [e] + b;
    DueSplits(a, e, b, callback);
    DueJoins(a, b, callback);
    hide Due, Calls;
  }

  lemma {:induction false} NoCalls(blocks: seq<Block>, callback: nat)
    requires forall i | 0 <= i < |blocks| :: !blocks[i].Cached()
    ensures Calls(blocks, callback) == 0
  {
    if blocks != [] { NoCalls(blocks[..|blocks| - 1], callback); }
  }

  lemma EmptyCalls(e: Entry, size: nat, callback: nat)
    requires EntryOk(e, size) && e.numBlocks == 0
    ensures Calls(e.blocks, callback) == 0
  {
    forall i | 0 <= i < |e.blocks|
      ensures !e.blocks[i].Cached()
    {
      CountSplits(e.blocks, 0, i, |e.blocks|);
      CountSplits(e.blocks, i, i + 1, |e.blocks|);
      assert CountCached(e.blocks, i, i) == 0;
    }
    NoCalls(e.blocks, callback);
  }

  lemma FirstCalls(n: nat, block: nat, b: Block, callback: nat)
    requires block < n
    ensures Calls(seq(n, _ => EMPTY_BLOCK)[block := b], callback) == Call(b, callback)
  {
    var none := seq(n, _ => EMPTY_BLOCK);
    NoCalls(none, callback);
    CallsReplaced(none, block, b, callback);
  }

  /** A flush of a piece posts exactly the callbacks it takes out of memory. */
  lemma FlushDues(pieces: seq<Entry>, k: nat, e': Entry, size: nat, from: nat, end: nat, failed: bool, before: seq<Completion>,
                  after: seq<Completion>)
    requires k < |pieces| && from <= end <= |pieces[k].blocks| && Emptied(pieces[k].blocks, e'.blocks, from, end)
    requires after == before + Posted(pieces[k].blocks, size, pieces[k].id, from, end, failed)
    ensures forall c: nat | c > 0 :: Due(pieces[k := e'], c) + Told(after, c) == Due(pieces, c) + Told(before, c)
  {
    var e := pieces[k];
    hide Due, Calls, Told, Posted, Emptied;
    forall c: nat | c > 0
      ensures Due(pieces[k := e'], c) + Told(after, c) == Due(pieces, c) + Told(before, c)
    {
      PostedCalls(e.blocks, e'.blocks, size, e.id, from, end, failed, c);
      ToldJoins(before, Posted(e.blocks, size, e.id, from, end, failed), c);
      DueReplaced(pieces, k, e', c);
    }
  }

  lemma FlushOfDues(pieces: seq<Entry>, k: nat, d: seq<Byte>, e': Entry, d': seq<Byte>, start: nat, end: nat, ret: nat, failed: bool,
                    before: seq<Completion>, after: seq<Completion>)
    requires k < |pieces| && FlushOf(pieces[k], d, e', d', start, end, ret, failed)
    requires var e := pieces[k]; after == before + Posted(e.blocks, |d'|, e.id, First(e, start, end), Limit(e, end), failed)
    ensures forall c: nat | c > 0 :: Due(pieces[k := e'], c) + Told(after, c) == Due(pieces, c) + Told(before, c)
  {
    hide Due, Told, Posted, Emptied, Flushed, SameOverlay, NextToHash, CountCached, EntryOk;
    FlushDues(pieces, k, e', |d'|, First(pieces[k], start, end), Limit(pieces[k], end), failed, before, after);
  }

  lemma DropDues(pieces: seq<Entry>, disk: map<nat, seq<Byte>>, k: nat)
    requires EntriesOk(pieces, disk) && k < |pieces| && pieces[k].numBlocks == 0
    ensures forall c: nat :: Due(Without(pieces, k), c) == Due(pieces, c)
  {
    EntryAt(pieces, disk, k);
    hide Due, Calls, Without, EntriesOk, EntryOk;
    forall c: nat
      ensures Due(Without(pieces, k), c) == Due(pieces, c)
    {
      EmptyCalls(pieces[k], |disk[pieces[k].id]|, c);
      DueReplaced(pieces, k, pieces[k], c);
    }
  }

  /** A block put into a piece, which then moves in the list. */
  lemma PutDues(pieces: seq<Entry>, k: nat, at: nat, e: Entry, block: nat, buf: seq<Byte>, callback: nat)
    requires k < |pieces| && at <= |pieces| - 1 && block < |pieces[k].blocks|
    requires e.blocks == pieces[k].blocks[block := Block(Some(buf), callback)]
    ensures |Without(pieces, k)| == |pieces| - 1
    ensures forall c: nat | c > 0 ::
              Due(Inserted(Without(pieces, k), at, e), c)
              == Due(pieces, c) - Call(pieces[k].blocks[block], c) + if c == callback then 1 else 0
  {
    WithoutLength(pieces, k);
    hide Due, Calls, Without, Inserted;
    forall c: nat | c > 0
      ensures Due(Inserted(Without(pieces, k), at, e), c)
              == Due(pieces, c) - Call(pieces[k].blocks[block], c) + if c == callback then 1 else 0
    {
      DueReplaced(pieces, k, e, c);
      DueInserted(Without(pieces, k), at, e, c);
      CallsReplaced(pieces[k].blocks, block, Block(Some(buf), callback), c);
    }
  }

  lemma NewDues(pieces: seq<Entry>, at: nat, e: Entry, block: nat, buf: seq<Byte>, callback: nat)
    requires at <= |pieces| && block < |e.blocks| && e.blocks == seq(|e.blocks|, _ => EMPTY_BLOCK)[block := Block(Some(buf), callback)]
    ensures forall c: nat | c > 0 :: Due(Inserted(pieces, at, e), c) == Due(pieces, c) + if c == callback then 1 else 0
  {
    hide Due, Calls, Inserted;
    forall c: nat | c > 0
      ensures Due(Inserted(pieces, at, e), c) == Due(pieces, c) + if c == callback then 1 else 0
    {
      DueInserted(pieces, at, e, c);
      FirstCalls(|e.blocks|, block, Block(Some(buf), callback), c);
    }
  }

  lemma OneTold(completions: seq<Completion>, x: Completion)
    ensures forall c: nat :: Told(completions + [x], c) == Told(completions, c) + if c == x.callback then 1 else 0
  {
    assert (completions + [x])[..|completions|] == completions;
  }

  /** The callback of a block that another one replaces while it waits. */
  function Replaced(e: Entry, block: nat): multiset<nat> {
    if block < |e.blocks| && e.blocks[block].Cached() then multiset{e.blocks[block].callback} else multiset{}
  }

  lemma ReplacedIs(e: Entry, block: nat)
    requires block < |e.blocks|
    ensures forall c: nat :: Replaced(e, block)[c] == Call(e.blocks[block], c)
  {
  }

  /** The callbacks of the write jobs. */
  ghost function Given(jobs: seq<Job>, callback: nat): nat {
    if jobs == [] then 0
    else
      var job := jobs[|jobs| - 1];
      Given(jobs[..|jobs| - 1], callback) + if job.WriteJob? && job.callback == callback then 1 else 0
  }

  lemma GivenNone(jobs: seq<Job>)
    ensures forall c: nat :: Given(jobs[..0], c) == 0
  {
  }

  lemma GivenMore(jobs: seq<Job>, k: nat)
    requires k < |jobs|
    ensures forall c: nat :: Given(jobs[..k + 1], c) == Given(jobs[..k], c) + if jobs[k].WriteJob? && jobs[k].callback == c then 1 else 0
  {
    assert jobs[..k + 1][..k] == jobs[..k];
  }
}
