/** A cache that looks behind the last slot of a piece. */
module DiskExamples {
  import opened Common
  import opened DiskBlocks
  import opened DiskEntries
  import opened DiskPieces
  import opened DiskReadback
  import opened DiskCache

  /** The entry of a piece of two blocks after both were put in, and flushed as one run. */
  lemma BothFlushed(a: seq<Byte>, b: seq<Byte>)
    ensures var e := PutIn(FirstEntry(1, 2, 0, a, 0), 1, b, 0);
      AfterLine(e, 2).nextToHash == |AfterLine(e, 2).blocks| == 2 && AfterLine(e, 2).id == 1 && AfterLine(e, 2).numBlocks == 0
  {
    var e := PutIn(FirstEntry(1, 2, 0, a, 0), 1, b, 0);
    assert e.blocks[0].Cached() && e.blocks[1].Cached();
    RunEndIs(e.blocks, 0, 2, 2);
  }

  lemma OneHeld(e: Entry, id: nat)
    ensures forall k: nat :: Holds([e], k, id) <==> k == 0 && e.id == id
    ensures forall k: nat :: !Holds([], k, id)
    ensures forall x: Entry :: Inserted([], 0, x) == [x] && Inserted(Without([e], 0), 0, x) == [x]
    ensures forall x: Entry :: Inserted([e], 1, x) == [e, x]
  {
  }

  lemma FirstBehind(e: Entry, e1: Entry)
    requires Hashed(e) && e.numBlocks == 0 && e1.numBlocks == 1
    ensures Total([e, e1]) == 1 && PastEnd([e, e1], 1)
  {
    assert [e, e1][..0] == [] && Total([e1]) == 1 && [e, e1][1..] == [e1];
    assert HashRuns([e, e1][..0]) == 0 && Hashed([e, e1][0]);
  }

  lemma TwoBlocks()
    ensures BLOCK_SIZE > 0 && NumBlocks(2 * BLOCK_SIZE) == 2
    ensures BlockLength(2 * BLOCK_SIZE, 0) == BlockLength(2 * BLOCK_SIZE, 1) == BLOCK_SIZE
    ensures forall p: seq<Entry>, d: map<nat, seq<Byte>>, p': seq<Entry>, d': map<nat, seq<Byte>>, id: nat, block: nat, buf: seq<Byte>, lost: set<nat> |
              Stored(p, d, p', d', id, block, buf, lost) :: d'.Keys == d.Keys && forall id | id in d :: |d'[id]| == |d[id]|
  {
    hide Content;
  }

  lemma FirstOf(id: nat, n: nat, block: nat, buf: seq<Byte>)
    requires block < n
    ensures FirstEntry(id, n, block, buf, 0).id == id && FirstEntry(id, n, block, buf, 0).numBlocks == 1
  {
  }

  /** A piece of two blocks is received in order and flushed as a line; then another piece has a block in the cache.
      Asked for room, the cache reads the slot behind the last one of the first piece. */
  method ReadBehind() returns (outOfRange: bool)
    ensures outOfRange
  {
    hide *;
    TwoBlocks();
    var piece := seq(2 * BLOCK_SIZE, _ => 0);
    var buf := seq(BLOCK_SIZE, _ => 1);
    var d := new DiskThread(map[1 := piece, 2 := piece], {}, false);
    ghost var e0, e1 := FirstEntry(1, 2, 0, buf, 0), FirstEntry(2, 2, 1, buf, 0);
    ghost var e := AfterLine(PutIn(e0, 1, buf, 0), 2);
    OneHeld(e0, 1);
    FirstOf(1, 2, 0, buf);
    FirstOf(2, 2, 1, buf);
    d.WriteBlock(1, 0, buf, 0, 0, 2, AvoidReadback);
    assert d.pieces == [e0];
    d.WriteBlock(1, 1, buf, 0, 0, 2, AvoidReadback);
    assert d.pieces == [e];
    BothFlushed(buf, buf);
    OneHeld(e, 2);
    d.WriteBlock(2, 1, buf, 0, 1, 2, AvoidReadback);
    assert d.pieces == [e, e1];
    FirstBehind(e, e1);
    var ret;
    ret, outOfRange := d.FlushCacheBlocks(1, AvoidReadback);
  }
}
