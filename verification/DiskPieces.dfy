/** The list of cached pieces over the disk: what a reader should get from the two together. */
module DiskPieces {
  import opened Common
  import opened DiskBlocks
  import opened DiskEntries

  ghost predicate Holds(pieces: seq<Entry>, k: nat, id: nat) {
    k < |pieces| && pieces[k].id == id
  }

  ghost predicate Distinct(pieces: seq<Entry>) {
    forall j, k | 0 <= j < k < |pieces| :: pieces[j].id != pieces[k].id
  }

  /** The block slots of a piece: none unless it has an entry. */
  ghost function Slots(pieces: seq<Entry>, id: nat): seq<Block> {
    if exists k: nat :: Holds(pieces, k, id) then
      var k: nat :| Holds(pieces, k, id);
      pieces[k].blocks
    else []
  }

  /** Block i of a piece as the cache and the disk have it together. */
  ghost function Content(pieces: seq<Entry>, disk: map<nat, seq<Byte>>, id: nat, i: nat): seq<Byte>
    requires id in disk && i < NumBlocks(|disk[id]|)
  {
    var b := Slots(pieces, id);
    if i < |b| && b[i].Cached() then b[i].buf.value else Slice(disk[id], i)
  }

  /** Every block of every piece outside `lost` reads as before. */
  ghost predicate SameContent(pieces: seq<Entry>, disk: map<nat, seq<Byte>>,
                              pieces': seq<Entry>, disk': map<nat, seq<Byte>>, lost: set<nat>) {
    && disk'.Keys == disk.Keys && SameSizes(disk, disk')
    && forall id, i: nat | id in disk && id !in lost && i < NumBlocks(|disk[id]|) ::
         Content(pieces', disk', id, i) == Content(pieces, disk, id, i)
  }

  ghost predicate SameSizes(disk: map<nat, seq<Byte>>, disk': map<nat, seq<Byte>>)
    requires disk'.Keys == disk.Keys
  {
    forall id | id in disk :: |disk'[id]| == |disk[id]|
  }

  ghost predicate EntriesOk(pieces: seq<Entry>, disk: map<nat, seq<Byte>>) {
    && Distinct(pieces)
    && forall k | 0 <= k < |pieces| :: pieces[k].id in disk && EntryOk(pieces[k], |disk[pieces[k].id]|)
  }

  /** The number of dirty blocks. */
  ghost function Total(pieces: seq<Entry>): int {
    if pieces == [] then 0 else pieces[0].numBlocks + Total(pieces[1..])
  }

  function Without(pieces: seq<Entry>, k: nat): seq<Entry>
    requires k < |pieces|
  {
    pieces[..k] + pieces[k + 1..]
  }

  function Inserted(pieces: seq<Entry>, k: nat, e: Entry): seq<Entry>
    requires k <= |pieces|
  {
    pieces[..k] + [e] + pieces[k..]
  }

  lemma SlotsAt(pieces: seq<Entry>, k: nat)
    requires Distinct(pieces) && k < |pieces|
    ensures Slots(pieces, pieces[k].id) == pieces[k].blocks
  {
    assert Holds(pieces, k, pieces[k].id);
    assert forall j: nat | Holds(pieces, j, pieces[k].id) :: j == k;
  }

  /** Slots depend only on which entries there are, not on their order. */
  lemma SlotsSame(pieces: seq<Entry>, pieces': seq<Entry>, id: nat)
    requires Distinct(pieces) && Distinct(pieces')
    requires forall e: Entry | e.id == id :: e in pieces <==> e in pieces'
    ensures Slots(pieces', id) == Slots(pieces, id)
  {
    if k: nat :| Holds(pieces, k, id) {
      SlotsAt(pieces, k);
      assert pieces[k] in pieces';
      var j :| 0 <= j < |pieces'| && pieces'[j] == pieces[k];
      SlotsAt(pieces', j);
    } else {
      if j: nat :| Holds(pieces', j, id) {
        HoldsToo(pieces', pieces, j, id);
        assert false;
      }
    }
  }

  lemma HoldsToo(pieces: seq<Entry>, pieces': seq<Entry>, k: nat, id: nat)
    requires Holds(pieces, k, id) && pieces[k] in pieces'
    ensures exists j: nat :: Holds(pieces', j, id)
  {
    var j :| 0 <= j < |pieces'| && pieces'[j] == pieces[k];
    assert Holds(pieces', j, id);
  }

  lemma {:induction false} TotalSplits(a: seq<Entry>, b: seq<Entry>)
    ensures Total(a + b) == Total(a) + Total(b)
  {
    if a == [] {
      assert a + b == b;
    } else {
      assert (a + b)[1..] == a[1..] + b;
      TotalSplits(a[1..], b);
    }
  }

  lemma TotalOne(e: Entry)
    ensures Total([e]) == e.numBlocks
  {
  }

  lemma TotalWithout(pieces: seq<Entry>, k: nat)
    requires k < |pieces|
    ensures Total(Without(pieces, k)) == Total(pieces) - pieces[k].numBlocks
  {
    hide *;
    var a, e, b := pieces[..k], pieces[k], pieces[k + 1..];
    WithoutParts(pieces, k);
    TotalSplits(a, [e] + b);
    TotalSplits([e], b);
    TotalSplits(a, b);
    TotalOne(e);
  }

  lemma WithoutParts(pieces: seq<Entry>, k: nat)
    requires k < |pieces|
    ensures pieces == pieces[..k] + ([pieces[k]] + pieces[k + 1..]) && Without(pieces, k) == pieces[..k] + pieces[k + 1..]
  {
  }

  lemma TotalInserted(pieces: seq<Entry>, k: nat, e: Entry)
    requires k <= |pieces|
    ensures Total(Inserted(pieces, k, e)) == Total(pieces) + e.numBlocks
  {
    WithoutInserted(pieces, k, e);
    hide Inserted, Without;
    TotalWithout(Inserted(pieces, k, e), k);
  }

  lemma WithoutInserted(pieces: seq<Entry>, k: nat, e: Entry)
    requires k <= |pieces|
    ensures |Inserted(pieces, k, e)| == |pieces| + 1 && Inserted(pieces, k, e)[k] == e
    ensures Without(Inserted(pieces, k, e), k) == pieces
  {
  }

  lemma TotalReplaced(pieces: seq<Entry>, k: nat, e: Entry)
    requires k < |pieces|
    ensures Total(pieces[k := e]) == Total(pieces) - pieces[k].numBlocks + e.numBlocks
  {
    TotalWithout(pieces, k);
    TotalWithout(pieces[k := e], k);
    assert Without(pieces[k := e], k) == Without(pieces, k);
  }

  lemma {:induction false} TotalBounds(pieces: seq<Entry>, disk: map<nat, seq<Byte>>, n: nat)
    requires EntriesOk(pieces, disk) && n <= |pieces|
    ensures 0 <= Total(pieces[n..])
    ensures Total(pieces[n..]) == 0 ==> forall k | n <= k < |pieces| :: pieces[k].numBlocks == 0
    decreases |pieces| - n
  {
    if n < |pieces| {
      TotalBounds(pieces, disk, n + 1);
      assert pieces[n..][1..] == pieces[n + 1..];
      assert EntryOk(pieces[n], |disk[pieces[n].id]|);
    }
  }

  lemma SameContentAgain(p: seq<Entry>, d: map<nat, seq<Byte>>, p1: seq<Entry>, d1: map<nat, seq<Byte>>, l1: set<nat>,
                         p2: seq<Entry>, d2: map<nat, seq<Byte>>, l2: set<nat>, lost: set<nat>)
    requires SameContent(p, d, p1, d1, l1) && SameContent(p1, d1, p2, d2, l2) && l1 <= lost && l2 <= lost
    ensures SameContent(p, d, p2, d2, lost)
  {
    hide Content;
  }

  /** Entry k and its piece on disk replaced by what shows the same. */
  lemma ReplaceEntry(pieces: seq<Entry>, disk: map<nat, seq<Byte>>, k: nat, e: Entry, d: seq<Byte>, lost: set<nat>)
    requires EntriesOk(pieces, disk) && k < |pieces| && e.id == pieces[k].id
    requires |d| == |disk[e.id]| && EntryOk(e, |d|)
    requires e.id !in lost ==> SameOverlay(pieces[k].blocks, disk[e.id], e.blocks, d)
    ensures EntriesOk(pieces[k := e], disk[e.id := d])
    ensures SameContent(pieces, disk, pieces[k := e], disk[e.id := d], lost)
  {
    var pieces', disk' := pieces[k := e], disk[e.id := d];
    hide EntryOk;
    assert Distinct(pieces');
    forall id, i: nat | id in disk && id !in lost && i < NumBlocks(|disk[id]|)
      ensures Content(pieces', disk', id, i) == Content(pieces, disk, id, i)
    {
      if id == e.id {
        SlotsAt(pieces, k);
        SlotsAt(pieces', k);
        assert Seen(e.blocks, d, i) == Seen(pieces[k].blocks, disk[e.id], i);
      } else {
        OthersSame(pieces, k, e, id);
      }
    }
  }

  lemma OthersSame(pieces: seq<Entry>, k: nat, e: Entry, id: nat)
    requires Distinct(pieces) && k < |pieces| && e.id == pieces[k].id != id
    ensures Slots(pieces[k := e], id) == Slots(pieces, id)
  {
    var pieces' := pieces[k := e];
    forall x: Entry | x.id == id
      ensures x in pieces <==> x in pieces'
    {
      if x in pieces {
        var j :| 0 <= j < |pieces| && pieces[j] == x;
        assert pieces'[j] == x;
      }
    }
    SlotsSame(pieces, pieces', id);
  }

  /** An entry without cached blocks can be dropped, or put back anywhere. */
  lemma DropEntry(pieces: seq<Entry>, disk: map<nat, seq<Byte>>, k: nat)
    requires EntriesOk(pieces, disk) && k < |pieces| && pieces[k].numBlocks == 0
    ensures EntriesOk(Without(pieces, k), disk)
    ensures SameContent(pieces, disk, Without(pieces, k), disk, {})
  {
    var pieces' := Without(pieces, k);
    var e := pieces[k];
    assert EntryOk(e, |disk[e.id]|);
    NoneCached(e.blocks, 0, |e.blocks|);
    WithoutOk(pieces, disk, k);
    hide EntryOk;
    forall id, i: nat | id in disk && i < NumBlocks(|disk[id]|)
      ensures Content(pieces', disk, id, i) == Content(pieces, disk, id, i)
    {
      if id == e.id {
        SlotsAt(pieces, k);
        assert forall j: nat :: !Holds(pieces', j, id);
      } else {
        forall x: Entry | x.id == id
          ensures x in pieces <==> x in pieces'
        {
          WithoutHas(pieces, k, x);
        }
        SlotsSame(pieces, pieces', id);
      }
    }
  }

  lemma WithoutHas(pieces: seq<Entry>, k: nat, x: Entry)
    requires k < |pieces| && x != pieces[k]
    ensures x in pieces <==> x in Without(pieces, k)
  {
    assert pieces == pieces[..k] + [pieces[k]] + pieces[k + 1..];
  }

  lemma WithoutOk(pieces: seq<Entry>, disk: map<nat, seq<Byte>>, k: nat)
    requires EntriesOk(pieces, disk) && k < |pieces|
    ensures EntriesOk(Without(pieces, k), disk)
    ensures forall j: nat :: !Holds(Without(pieces, k), j, pieces[k].id)
  {
    hide EntryOk;
    var pieces' := Without(pieces, k);
    assert forall j | 0 <= j < |pieces'| :: pieces'[j] == pieces[if j < k then j else j + 1];
  }

  /** An entry put in a list that has none for its piece. */
  lemma InsertEntry(pieces: seq<Entry>, disk: map<nat, seq<Byte>>, k: nat, e: Entry)
    requires EntriesOk(pieces, disk) && k <= |pieces| && e.id in disk && EntryOk(e, |disk[e.id]|)
    requires forall j: nat :: !Holds(pieces, j, e.id)
    ensures EntriesOk(Inserted(pieces, k, e), disk)
    ensures forall id | id != e.id :: Slots(Inserted(pieces, k, e), id) == Slots(pieces, id)
    ensures Slots(Inserted(pieces, k, e), e.id) == e.blocks
  {
    hide EntryOk;
    var pieces' := Inserted(pieces, k, e);
    assert forall j | 0 <= j < |pieces'| :: pieces'[j] == if j < k then pieces[j] else if j == k then e else pieces[j - 1];
    forall j | 0 <= j < |pieces|
      ensures pieces[j].id != e.id
    {
      assert !Holds(pieces, j, e.id);
    }
    SlotsAt(pieces', k);
    forall id | id != e.id
      ensures Slots(pieces', id) == Slots(pieces, id)
    {
      forall x: Entry | x.id == id
        ensures x in pieces <==> x in pieces'
      {
        WithoutInserted(pieces, k, e);
        WithoutHas(pieces', k, x);
      }
      SlotsSame(pieces, pieces', id);
    }
  }

  /** Moving an entry to another place in the list changes nothing a reader sees. */
  lemma MoveEntry(pieces: seq<Entry>, disk: map<nat, seq<Byte>>, k: nat, at: nat)
    requires EntriesOk(pieces, disk) && k < |pieces| && at < |pieces|
    ensures EntriesOk(Inserted(Without(pieces, k), at, pieces[k]), disk)
    ensures SameContent(pieces, disk, Inserted(Without(pieces, k), at, pieces[k]), disk, {})
    ensures Total(Inserted(Without(pieces, k), at, pieces[k])) == Total(pieces)
  {
    var rest := Without(pieces, k);
    var e := pieces[k];
    WithoutOk(pieces, disk, k);
    SlotsAt(pieces, k);
    assert |rest| == |pieces| - 1;
    InsertedWithout(pieces, k);
    hide EntriesOk, Without, Inserted, Slots, Holds, Content, SameContent, Total;
    InsertEntry(rest, disk, at, e);
    InsertEntry(rest, disk, k, e);
    TotalInserted(rest, at, e);
    TotalInserted(rest, k, e);
    SameSlots(pieces, Inserted(rest, at, e), disk);
  }

  lemma InsertedWithout(pieces: seq<Entry>, k: nat)
    requires k < |pieces|
    ensures k <= |Without(pieces, k)| && Inserted(Without(pieces, k), k, pieces[k]) == pieces
  {
  }

  lemma SameSlots(pieces: seq<Entry>, pieces': seq<Entry>, disk: map<nat, seq<Byte>>)
    requires forall id :: Slots(pieces', id) == Slots(pieces, id)
    ensures SameContent(pieces, disk, pieces', disk, {})
  {
  }

  lemma EntryAt(pieces: seq<Entry>, disk: map<nat, seq<Byte>>, k: nat)
    requires EntriesOk(pieces, disk) && k < |pieces|
    ensures pieces[k].id in disk && EntryOk(pieces[k], |disk[pieces[k].id]|)
  {
  }

  lemma {:induction false} NoRunNoBlocks(blocks: seq<Block>, n: nat)
    requires n <= |blocks|
    ensures LongestRun(blocks, n) == 0 <==> CountCached(blocks, 0, n) == 0
  {
    if n > 0 {
      NoRunNoBlocks(blocks, n - 1);
      if blocks[n - 1].Cached() { LongestRunBounds(blocks, n, n - 1, n); }
    }
  }

  /** Runs only get shorter when blocks are let go. */
  lemma FewerCached(blocks: seq<Block>, blocks': seq<Block>)
    requires |blocks'| == |blocks| && forall i | 0 <= i < |blocks| && blocks'[i].Cached() :: blocks[i].Cached()
    ensures LongestRun(blocks', |blocks|) <= LongestRun(blocks, |blocks|)
  {
    var from := LongestRunExists(blocks', |blocks|);
    LongestRunBounds(blocks, |blocks|, from, from + LongestRun(blocks', |blocks|));
  }

  /** What the flush of a range tells about the whole entry. */
  lemma FlushFacts(e: Entry, d: seq<Byte>, e': Entry, d': seq<Byte>, start: nat, end: nat, ret: nat, failed: bool)
    requires FlushOf(e, d, e', d', start, end, ret, failed) && EntryOk(e, |d|)
    ensures |d'| == |d| && EntryOk(e', |d|) && e'.id == e.id && e'.numBlocks == e.numBlocks - ret
    ensures !failed ==> SameOverlay(e.blocks, d, e'.blocks, d')
    ensures e'.numContiguous <= e.numContiguous
    ensures start == 0 && |e.blocks| <= end ==> ret == e.numBlocks
  {
    FewerCached(e.blocks, e'.blocks);
  }

  /** A block put into an entry. */
  function Put(blocks: seq<Block>, block: nat, buf: seq<Byte>, callback: nat): seq<Block>
    requires block < |blocks|
  {
    blocks[block := Block(Some(buf), callback)]
  }

  lemma PutCount(blocks: seq<Block>, block: nat, buf: seq<Byte>, callback: nat)
    requires block < |blocks|
    ensures CountCached(Put(blocks, block, buf, callback), 0, |blocks|)
            == CountCached(blocks, 0, |blocks|) + if blocks[block].Cached() then 0 else 1
  {
    var blocks' := Put(blocks, block, buf, callback);
    CountSplits(blocks, 0, block, |blocks|);
    CountSplits(blocks, block, block + 1, |blocks|);
    CountSplits(blocks', 0, block, |blocks|);
    CountSplits(blocks', block, block + 1, |blocks|);
    CountSame(blocks, blocks', 0, block);
    CountSame(blocks, blocks', block + 1, |blocks|);
    assert CountCached(blocks, block, block) == 0 == CountCached(blocks', block, block);
  }

  /** Whether the longest run has to be looked for again after a block is put in. */
  predicate Recount(e: Entry, block: nat)
    requires block < |e.blocks|
  {
    && !e.blocks[block].Cached()
    && ((block > 0 && e.blocks[block - 1].Cached()) || (block + 1 < |e.blocks| && e.blocks[block + 1].Cached())
        || e.numBlocks == 0)
  }

  /** A block with no cached neighbour does not make a longer run, unless it is the only one. */
  lemma AloneKeepsRun(e: Entry, size: nat, block: nat, buf: seq<Byte>, callback: nat)
    requires EntryOk(e, size) && block < |e.blocks| && !Recount(e, block)
    ensures LongestRun(Put(e.blocks, block, buf, callback), |e.blocks|) == LongestRun(e.blocks, |e.blocks|)
  {
    var n, blocks' := |e.blocks|, Put(e.blocks, block, buf, callback);
    FewerCached(blocks', e.blocks);
    var run := LongestRun(blocks', n);
    var from := LongestRunExists(blocks', n);
    if e.blocks[block].Cached() || !(from <= block < from + run) {
      forall i | from <= i < from + run
        ensures e.blocks[i].Cached()
      {
        assert blocks'[i].Cached();
      }
      LongestRunBounds(e.blocks, n, from, from + run);
    } else {
      assert block > 0 ==> !blocks'[block - 1].Cached();
      assert block + 1 < n ==> !blocks'[block + 1].Cached();
      assert from == block && run == 1;
      NoRunNoBlocks(e.blocks, n);
    }
  }

  /** The entry after a block was put in. */
  lemma PutOk(e: Entry, size: nat, block: nat, buf: seq<Byte>, callback: nat, contiguous: int)
    requires EntryOk(e, size) && block < |e.blocks| && |buf| == BlockLength(size, block)
    requires contiguous == if Recount(e, block) then LongestRun(Put(e.blocks, block, buf, callback), |e.blocks|) else e.numContiguous
    ensures EntryOk(e.(blocks := Put(e.blocks, block, buf, callback), numContiguous := contiguous,
                       numBlocks := e.numBlocks + if e.blocks[block].Cached() then 0 else 1), size)
  {
    PutCount(e.blocks, block, buf, callback);
    if !Recount(e, block) { AloneKeepsRun(e, size, block, buf, callback); }
  }

  /** Block `block` of piece `id` reads as `buf`, and every other block outside `lost` as before. */
  ghost predicate Stored(pieces: seq<Entry>, disk: map<nat, seq<Byte>>, pieces': seq<Entry>, disk': map<nat, seq<Byte>>,
                         id: nat, block: nat, buf: seq<Byte>, lost: set<nat>) {
    && disk'.Keys == disk.Keys && SameSizes(disk, disk')
    && forall x, i: nat | x in disk && x !in lost && i < NumBlocks(|disk[x]|) ::
         Content(pieces', disk', x, i) == if x == id && i == block then buf else Content(pieces, disk, x, i)
  }

  lemma StoredThen(p: seq<Entry>, d: map<nat, seq<Byte>>, p1: seq<Entry>, d1: map<nat, seq<Byte>>,
                   p2: seq<Entry>, d2: map<nat, seq<Byte>>, id: nat, block: nat, buf: seq<Byte>, l1: set<nat>, l2: set<nat>,
                   lost: set<nat>)
    requires Stored(p, d, p1, d1, id, block, buf, l1) && SameContent(p1, d1, p2, d2, l2) && l1 <= lost && l2 <= lost
    ensures Stored(p, d, p2, d2, id, block, buf, lost)
  {
    hide Content;
  }

  lemma StorePut(pieces: seq<Entry>, disk: map<nat, seq<Byte>>, k: nat, e: Entry, block: nat, buf: seq<Byte>, callback: nat)
    requires EntriesOk(pieces, disk) && k < |pieces| && e.id == pieces[k].id
    requires block < |pieces[k].blocks| && e.blocks == Put(pieces[k].blocks, block, buf, callback)
    requires EntryOk(e, |disk[e.id]|)
    ensures EntriesOk(pieces[k := e], disk)
    ensures Stored(pieces, disk, pieces[k := e], disk, e.id, block, buf, {})
  {
    hide EntryOk;
    var pieces' := pieces[k := e];
    assert Distinct(pieces');
    forall x, i: nat | x in disk && i < NumBlocks(|disk[x]|)
      ensures Content(pieces', disk, x, i) == if x == e.id && i == block then buf else Content(pieces, disk, x, i)
    {
      if x == e.id {
        SlotsAt(pieces, k);
        SlotsAt(pieces', k);
      } else {
        OthersSame(pieces, k, e, x);
      }
    }
  }

  /** An entry for a piece that had none. */
  lemma StoreNew(pieces: seq<Entry>, disk: map<nat, seq<Byte>>, k: nat, e: Entry, block: nat, buf: seq<Byte>, callback: nat)
    requires EntriesOk(pieces, disk) && k <= |pieces| && e.id in disk && EntryOk(e, |disk[e.id]|)
    requires forall j: nat :: !Holds(pieces, j, e.id)
    requires block < |e.blocks| && e.blocks == Put(seq(|e.blocks|, _ => EMPTY_BLOCK), block, buf, callback)
    ensures EntriesOk(Inserted(pieces, k, e), disk)
    ensures Stored(pieces, disk, Inserted(pieces, k, e), disk, e.id, block, buf, {})
  {
    InsertEntry(pieces, disk, k, e);
  }

  /** The entry of a piece that gets its first block. */
  lemma FreshOk(id: nat, size: nat, block: nat, buf: seq<Byte>, callback: nat)
    requires block < NumBlocks(size) && |buf| == BlockLength(size, block)
    ensures EntryOk(Entry(id, Put(seq(NumBlocks(size), _ => EMPTY_BLOCK), block, buf, callback), 1, 1, 0), size)
  {
    var none := seq(NumBlocks(size), _ => EMPTY_BLOCK);
    CountNone(none, 0, |none|);
    NoRunNoBlocks(none, |none|);
    var e := Entry(id, none, 0, 0, 0);
    PutCount(none, block, buf, callback);
    var blocks := Put(none, block, buf, callback);
    var run := LongestRun(blocks, |none|);
    var from := LongestRunExists(blocks, |none|);
    if run > 0 {
      assert blocks[from].Cached() && blocks[from + run - 1].Cached();
      assert from == block == from + run - 1;
    }
    LongestRunBounds(blocks, |none|, block, block + 1);
  }

  lemma DirectFits(disk: map<nat, seq<Byte>>, id: nat, block: nat, buf: seq<Byte>)
    requires id in disk && NumBlocks(|disk[id]|) <= 1 && block < NumBlocks(|disk[id]|)
    requires |buf| == BlockLength(|disk[id]|, block)
    ensures block == 0 && |buf| == |disk[id]|
  {
    BlockFits(|disk[id]|, 0);
  }

  /** A piece that has a single block is written straight to disk. */
  lemma StoreDirect(pieces: seq<Entry>, disk: map<nat, seq<Byte>>, id: nat, block: nat, buf: seq<Byte>,
                    disk': map<nat, seq<Byte>>, lost: set<nat>)
    requires EntriesOk(pieces, disk) && id in disk && NumBlocks(|disk[id]|) == 1 && block == 0
    requires |buf| == |disk[id]| && forall j: nat :: !Holds(pieces, j, id)
    requires id in disk' && disk' == disk[id := disk'[id]] && |disk'[id]| == |disk[id]|
    requires id in lost || disk'[id] == WriteAt(disk[id], 0, buf)
    ensures EntriesOk(pieces, disk') && Stored(pieces, disk, pieces, disk', id, block, buf, lost)
  {
    hide EntryOk;
    BlockFits(|disk[id]|, 0);
    if id !in lost {
      assert disk'[id] == buf;
      assert Slice(buf, 0) == buf;
    }
  }

  lemma StoredMore(p: seq<Entry>, d: map<nat, seq<Byte>>, p1: seq<Entry>, d1: map<nat, seq<Byte>>,
                   id: nat, block: nat, buf: seq<Byte>, lost: set<nat>)
    requires Stored(p, d, p1, d1, id, block, buf, {})
    ensures Stored(p, d, p1, d1, id, block, buf, lost)
  {
    hide Content;
  }

  /** The number of blocks in the bytes of a run. */
  lemma RunBlocks(blocks: seq<Block>, size: nat, from: nat, end: nat)
    requires Buffers(blocks, size) && from < end <= |blocks| && AllCached(blocks, from, end)
    ensures NumBlocks(|RunData(blocks, from, end)|) == end - from
  {
    RunLength(blocks, size, from, end);
  }

  /** The least recently used piece was flushed whole and dropped. */
  lemma DropFirst(pieces: seq<Entry>, was: seq<Entry>, k: nat)
    requires k < |was| && pieces == was[k..]
    ensures Without(pieces, 0) == was[k + 1..]
    ensures Total(was[..k + 1]) == Total(was[..k]) + was[k].numBlocks
    ensures AllWrites(was[..k + 1]) == AllWrites(was[..k]) + Writes(was[k].blocks, was[k].id, 0, |was[k].blocks|)
  {
    hide Writes;
    assert was[..k + 1] == was[..k] + [was[k]];
    TotalSplits(was[..k], [was[k]]);
    assert Total([was[k]]) == was[k].numBlocks;
  }

  /** The writes of all cached blocks of some pieces, in order. */
  ghost function AllWrites(pieces: seq<Entry>): seq<WriteOp> {
    if pieces == [] then []
    else
      var e := pieces[|pieces| - 1];
      AllWrites(pieces[..|pieces| - 1]) + Writes(e.blocks, e.id, 0, |e.blocks|)
  }

  /** The blocks that some writes cover. */
  ghost function BlocksOf(writes: seq<WriteOp>): nat {
    if writes == [] then 0 else BlocksOf(writes[..|writes| - 1]) + NumBlocks(|writes[|writes| - 1].data|)
  }

  /** Of the pieces in order of use, exactly as many as it takes to find enough blocks were written out and dropped. */
  ghost predicate UsedFirst(before: seq<Entry>, log: seq<WriteOp>, after: seq<Entry>, log': seq<WriteOp>, blocks: nat, ret: nat,
                            k: nat) {
    && k <= |before| && after == before[k..] && log' == log + AllWrites(before[..k]) && ret == Total(before[..k])
    && (ret >= blocks || after == []) && (k > 0 ==> Total(before[..k - 1]) < blocks)
  }

  /** Longest runs were written, each the longest there was at its time, as many as it took to find enough blocks. */
  ghost predicate LongestFirst(log: seq<WriteOp>, after: seq<Entry>, log': seq<WriteOp>, blocks: int, ret: nat) {
    && log <= log' && Falling(log', |log|, after) && ret == BlocksOf(log'[|log|..])
    && (|log| < |log'| ==> ret - NumBlocks(|log'[|log'| - 1].data|) < blocks)
  }

  lemma UsedEnough(before: seq<Entry>, log: seq<WriteOp>, after: seq<Entry>, log': seq<WriteOp>, blocks: nat, ret: nat, k: nat)
    requires UsedFirst(before, log, after, log', blocks, ret, k)
    ensures ret >= blocks || after == []
  {
  }

  /** No entry became empty and stayed; and, if asked for, none that was empty left. */
  ghost predicate EmptiesStay(before: seq<Entry>, after: seq<Entry>, all: bool) {
    && (forall e | e in after && e.numBlocks == 0 :: e in before)
    && (all ==> forall e | e in before && e.numBlocks == 0 :: e in after)
  }

  lemma EmptiesStayMore(before: seq<Entry>, pieces: seq<Entry>, k: nat, e: Entry, all: bool)
    requires EmptiesStay(before, pieces, all) && k < |pieces| && (all ==> pieces[k].numBlocks != 0)
    ensures EmptiesStay(before, if e.numBlocks == 0 then Without(pieces[k := e], k) else pieces[k := e], all)
  {
    forall x | x in pieces && x != pieces[k]
      ensures x in Without(pieces[k := e], k) && x in pieces[k := e]
    {
      var j :| 0 <= j < |pieces| && pieces[j] == x;
      assert pieces[k := e][j] == x && Without(pieces[k := e], k)[if j < k then j else j - 1] == x;
    }
  }

  /** The longest run of piece k was written, and the piece dropped if it was all that was left. */
  ghost predicate RunWritten(before: seq<Entry>, log: seq<WriteOp>, after: seq<Entry>, log': seq<WriteOp>, k: nat, ret: nat) {
    && k < |before| && ret == before[k].numContiguous && (ret == 0 ==> log' == log)
    && (ret > 0 ==> exists w :: log' == log + [w] && NumBlocks(|w.data|) == ret)
    && exists e: Entry ::
         && e.numContiguous <= ret && (ret == 0 ==> e == before[k])
         && after == if e.numBlocks == 0 then Without(before[k := e], k) else before[k := e]
  }

  lemma RunIsWritten(before: seq<Entry>, log: seq<WriteOp>, e: Entry, log': seq<WriteOp>, k: nat, ret: nat)
    requires k < |before| && ret == before[k].numContiguous && (ret == 0 ==> log' == log && e == before[k])
    requires ret > 0 ==> exists w :: log' == log + [w] && NumBlocks(|w.data|) == ret && w.id == e.id
    requires e.numContiguous <= ret
    ensures RunWritten(before, log, if e.numBlocks == 0 then Without(before[k := e], k) else before[k := e], log', k, ret)
  {
  }

  /** One more longest run. */
  lemma LargestStep(log0: seq<WriteOp>, pieces0: seq<Entry>, pieces: seq<Entry>, log: seq<WriteOp>, pieces': seq<Entry>,
                    log': seq<WriteOp>, k: nat, removed: nat, blocks: int, ret: nat, all: bool)
    requires LongestFirst(log0, pieces, log, blocks, ret) && EmptiesStay(pieces0, pieces, all) && ret < blocks
    requires k < |pieces| && (forall j | 0 <= j < |pieces| :: pieces[j].numContiguous <= pieces[k].numContiguous)
    requires RunWritten(pieces, log, pieces', log', k, removed) && (all ==> pieces[k].numBlocks != 0)
    ensures LongestFirst(log0, pieces', log', blocks, ret + removed) && EmptiesStay(pieces0, pieces', all)
  {
    hide Falling, NumBlocks, BlocksOf, EmptiesStay, Without;
    var e: Entry :| e.numContiguous <= removed && (removed == 0 ==> e == pieces[k])
                    && pieces' == if e.numBlocks == 0 then Without(pieces[k := e], k) else pieces[k := e];
    EmptiesStayMore(pieces0, pieces, k, e, all);
    if removed > 0 {
      var w :| log' == log + [w] && NumBlocks(|w.data|) == removed;
      FallingMore(log, |log0|, pieces, k, e, w);
      LongestMore(log0, log, w, ret, blocks);
    } else {
      assert pieces[k := e] == pieces;
    }
    FallingDrop(log', |log0|, pieces[k := e], k);
  }

  lemma NothingFlushed(pieces: seq<Entry>, disk: map<nat, seq<Byte>>, log: seq<WriteOp>, blocks: int, all: bool, lost: set<nat>)
    ensures LongestFirst(log, pieces, log, blocks, 0) && EmptiesStay(pieces, pieces, all)
    ensures SameContent(pieces, disk, pieces, disk, lost)
  {
  }

  lemma LongestMore(log: seq<WriteOp>, log1: seq<WriteOp>, w: WriteOp, ret: nat, blocks: int)
    requires log <= log1 && ret == BlocksOf(log1[|log|..]) && ret < blocks
    ensures BlocksOf((log1 + [w])[|log|..]) == ret + NumBlocks(|w.data|)
  {
    assert (log1 + [w])[|log|..] == log1[|log|..] + [w];
  }

  /** The writes logged since `from` cover ever fewer blocks, and none fewer than the longest run left. */
  ghost predicate Falling(log: seq<WriteOp>, from: nat, pieces: seq<Entry>) {
    && from <= |log|
    && (forall i, j | from <= i < j < |log| :: NumBlocks(|log[j].data|) <= NumBlocks(|log[i].data|))
    && (forall i, k | from <= i < |log| && 0 <= k < |pieces| :: pieces[k].numContiguous <= NumBlocks(|log[i].data|))
  }

  lemma FallingDrop(log: seq<WriteOp>, from: nat, pieces: seq<Entry>, k: nat)
    requires Falling(log, from, pieces) && k < |pieces|
    ensures Falling(log, from, Without(pieces, k))
  {
    var pieces' := Without(pieces, k);
    assert forall j | 0 <= j < |pieces'| :: pieces'[j] == pieces[if j < k then j else j + 1];
  }

  lemma FallingMore(log: seq<WriteOp>, from: nat, pieces: seq<Entry>, k: nat, e: Entry, w: WriteOp)
    requires Falling(log, from, pieces) && k < |pieces|
    requires forall j | 0 <= j < |pieces| :: pieces[j].numContiguous <= pieces[k].numContiguous
    requires e.numContiguous <= pieces[k].numContiguous == NumBlocks(|w.data|)
    ensures Falling(log + [w], from, pieces[k := e])
  {
    hide NumBlocks;
  }

  lemma NothingYet(pieces: seq<Entry>, disk: map<nat, seq<Byte>>, log: seq<WriteOp>)
    ensures pieces[..0] == [] && Total(pieces[..0]) == 0
    ensures SameContent(pieces, disk, pieces, disk, {})
    ensures Falling(log, |log|, pieces) && log + AllWrites(pieces[..0]) == log && BlocksOf(log[|log|..]) == 0
  {
  }

  lemma TotalNone(pieces: seq<Entry>, disk: map<nat, seq<Byte>>)
    requires EntriesOk(pieces, disk)
    ensures Total(pieces) >= 0 && (pieces == [] ==> Total(pieces) == 0)
  {
    TotalBounds(pieces, disk, 0);
    assert pieces[0..] == pieces;
  }

  lemma NoRunNoCount(e: Entry, size: nat)
    requires EntryOk(e, size)
    ensures e.numContiguous == LongestRun(e.blocks, |e.blocks|)
    ensures e.numContiguous == 0 <==> e.numBlocks == 0
    ensures Buffers(e.blocks, size)
  {
    NoRunNoBlocks(e.blocks, |e.blocks|);
  }


  lemma SomeBlocks(e: Entry, size: nat)
    requires EntryOk(e, size)
    ensures |e.blocks| > 0
  {
  }

  lemma WithoutLength(pieces: seq<Entry>, k: nat)
    requires k < |pieces|
    ensures |Without(pieces, k)| == |pieces| - 1
  {
  }

  lemma InsertedAt(pieces: seq<Entry>, k: nat, e: Entry)
    requires k <= |pieces|
    ensures |Inserted(pieces, k, e)| == |pieces| + 1 && Inserted(pieces, k, e)[k] == e
  {
  }

  /** What reaches the cache: a downloaded block, or the need for room. */
  datatype Job = WriteJob(id: nat, block: nat, buf: seq<Byte>, callback: nat) | MakeRoom(blocks: nat)

  ghost predicate JobOk(j: Job, disk: map<nat, seq<Byte>>) {
    j.WriteJob? ==> j.id in disk && j.block < NumBlocks(|disk[j.id]|) && |j.buf| == BlockLength(|disk[j.id]|, j.block)
  }

  /** The last of the jobs that wrote a block. */
  function LastWrite(jobs: seq<Job>, id: nat, block: nat): Option<seq<Byte>> {
    if jobs == [] then None
    else
      var j := jobs[|jobs| - 1];
      if j.WriteJob? && j.id == id && j.block == block then Some(j.buf) else LastWrite(jobs[..|jobs| - 1], id, block)
  }

  /** After the jobs every block reads as it was last written. */
  ghost predicate Served(pieces: seq<Entry>, disk: map<nat, seq<Byte>>, pieces': seq<Entry>, disk': map<nat, seq<Byte>>,
                         jobs: seq<Job>, lost: set<nat>) {
    && disk'.Keys == disk.Keys && SameSizes(disk, disk')
    && forall x, i: nat | x in disk && x !in lost && i < NumBlocks(|disk[x]|) ::
         Content(pieces', disk', x, i)
         == match LastWrite(jobs, x, i) case Some(buf) => buf case None => Content(pieces, disk, x, i)
  }

  lemma ServedMore(p: seq<Entry>, d: map<nat, seq<Byte>>, p1: seq<Entry>, d1: map<nat, seq<Byte>>,
                   p2: seq<Entry>, d2: map<nat, seq<Byte>>, jobs: seq<Job>, k: nat, lost: set<nat>)
    requires k < |jobs| && Served(p, d, p1, d1, jobs[..k], lost)
    requires match jobs[k]
             case WriteJob(id, block, buf, _) => Stored(p1, d1, p2, d2, id, block, buf, lost)
             case MakeRoom(_) => SameContent(p1, d1, p2, d2, lost)
    ensures Served(p, d, p2, d2, jobs[..k + 1], lost)
  {
    hide Content;
    assert jobs[..k + 1][..k] == jobs[..k];
  }

  lemma ServedNone(pieces: seq<Entry>, disk: map<nat, seq<Byte>>, jobs: seq<Job>, lost: set<nat>)
    ensures Served(pieces, disk, pieces, disk, jobs[..0], lost)
  {
  }

  lemma SameJob(j: Job, disk: map<nat, seq<Byte>>, disk': map<nat, seq<Byte>>)
    requires disk'.Keys == disk.Keys && SameSizes(disk, disk') && JobOk(j, disk)
    ensures JobOk(j, disk')
  {
  }
}
