# A model of the BitTorrent library's core, with proofs

The project models the parts of the library that keep intricate state by hand, and proves what they are relied on for:

- **Piece picker.** `PieceTypes`, `Buckets` and `CountingSort` hold the theory of the flat array of wanted pieces that
  is cut into priority buckets; `Downloads` that of the sorted list of downloading pieces with its compacting store of
  block records; `Cursors` that of the cursors and running totals. The class `Picker` in `PiecePicker` has the real
  operations; `FullFlags` is an invariant of theirs. `PickPieces` selects the blocks to request and `PickLaws` counts
  how often it lists each. `PickerExamples` and `PickExamples` are runs where an operation or a pick goes wrong.
- **Write-back disk cache.** `DiskBlocks`, `DiskEntries` and `DiskPieces` say what a reader sees of disk and dirty
  blocks together; the class `DiskThread` in `DiskCache` puts blocks in, flushes runs and makes room by any of the three
  algorithms. `DiskRuns` says which run is the longest and what is left without it, `DiskReadback` is the theory of the
  algorithm that avoids reading back, which is the default, and `DiskCalls` counts callbacks. `DiskExamples` is a run that
  looks behind the last slot of a piece.
- **Bencoding.** `Bencode` and `BdecodeGrammar` are the values, their canonical text and a recursive reader;
  `BdecodeLoose` says without the reader which texts it accepts, and `BdecodeCuts` what becomes of an input that was cut off; `LazyCells` and `LazyBdecode` are the decoder proper:
  one loop, an explicit stack of pointers into growable arrays.
- **Text conversion.** `Utf` converts between UTF-8, UTF-16 and UTF-32.
- **Layout and arithmetic.** `FileLayout` orders, pads and maps files; `Bandwidth` shares out rate limits; `Merkle`
  builds hash trees in place; `Metadata` maps 256 blocks to metadata of any size.
- **Index structures.** `PacketBuffer` is the circular packet store and `PacketExamples` a run in which a packet
  replaces another; `PeerList` chooses peers to connect to and forgets others in the same scan.

State the library changes in place is a field that methods reassign, and loops stay loops. Every such method is proved
against a specification over values, and the lemmas are about those specifications. A method that takes part in an
invariant promises `Valid()` as well as its effect. `random()` and `random_shuffle` may return anything they are allowed
to. SHA-1 is any function of two hashes, disk writes update a map of bytes, and times are parameters.

## What the proofs add up to

- **Incremental is rebuild.** `Clean` describes a list of wanted pieces in which each piece stands in its own bucket and
  is pointed back at. Every operation of the picker keeps it, the counting-sort rebuild establishes it, and
  `CountingSort.CleanIsUnique` shows that two clean lists for the same pieces have the same boundaries and the same set
  of pieces in every bucket. So any run of incremental updates agrees with a rebuild.
- **The block state machine.** `Picker.Valid` says that the counters of each downloading piece count its blocks, that a
  block has peers exactly when it is requested, and that a piece is listed exactly when its flag is set and one of its
  blocks is active. Each `Mark…`, `AbortDownload` and `WriteFailed` changes the view of one piece as a small function
  of blocks says, and leaves the views of all others alone although their records may move.
- **Buckets mean rarity.** Where a piece stands follows from its record: `PieceTypes.OrdinaryOrder`, `HalvedOrder` and
  `TopOrder` determine the order of any two pieces by peers, user priority and downloading flag, and in it of two pieces
  alike in all else the rarer one is ahead (`PieceTypes.RarerFirst`).
- **Picking is rarest first, and complete.** With an order asked for, every block `PickPieces` lists belongs to a piece,
  or to the run of whole pieces around one, such that every piece ahead of that one is taken completely or as far as it
  is free, through the incremental list as well as a fresh one; and it returns fewer blocks than asked for only if every
  block that could be found is among them. Without long runs no block is listed while a rarer piece has one on offer.
- **Speeds are matched.** A free block of a piece that other peers are at work on at another speed is listed only behind
  every block in reach that is no such one, and one two speed steps away only behind those one step away; when whole
  pieces are wanted, a block of any piece that others are at work on comes last (the `ByChoice` clause of `PickPieces`).
- **Picking lists no block twice.** In every mode, unless whole pieces are taken two or more at a time or a piece is
  suggested twice. For every list with a piece suggested twice, and for every length of run in sequential or rarest-first
  order, `PickExamples.Repeats` has a picker that lists a block twice.
- **Reads see the last write.** For any run of write jobs and of demands for room, under each of the three algorithms,
  `DiskThread.Serve` leaves every block of every piece whose writes succeed reading as it was last written, wherever the
  bytes are; and each callback handed in was posted as often as it was given, but for those of blocks that still wait and
  of blocks that were replaced while they waited.
- **Decoding inverts encoding, exactly when the limits allow.** `LazyDecoder.Decode` computes the recursive reader on
  every input, malformed or not, and `BdecodeGrammar.DecodeInvertsEncode` shows that the reader inverts the canonical
  text of every value if and only if the depth and item limits admit it. What it accepts is exactly the text that begins
  with something that spells a value (`BdecodeLoose.AcceptsExactly`).
- **Layout follows the rules, and only those.** `FileStorage.Optimize` puts the largest waiting file at every aligned
  offset, and fills what is missing in front of a large one with the largest file that fits or else a pad; ties go to
  the file given first, so the order is determined.
- **Rate limits hold.** In a round each request gets what it is owed or the least of its channels' shares
  (`Bandwidth.SharesOfRound`). Over any run of requests, rounds and changed limits the bytes granted through a channel
  that has a limit throughout are at most its first quota and, for each millisecond of a round, a thousandth of the limit
  in force, half a byte a round for rounding (`Bandwidth.BandwidthManager.Run`).
- **A hash path proves its node.** Whatever leads to the root of a hash tree is part of the tree, or else
  `Merkle.ClimbIsTrue` returns the place of a collision, for every hash function.
- **Conversion writes what it read.** On every source, well-formed or not, the output of a text conversion is the
  encoding of exactly the code points the consumed units are read as, and `Utf.TightIs` says when those units are
  themselves their encoding.

## What the code does that one might not expect

Where the code differs from what its comments or assertions suggest, the model follows the code.

- A request overwrites the name of the peer that had the block before, so aborting it restores the piece if and only if
  the block had no such peer (`Downloads.AbortUndoesRequest`; `PickerExamples.AbortForgets` is a run where it had one).
- `init` keeps its count of filtered pieces while it truncates the map: the count is right afterwards if and only if no
  filtered piece was cut off (`PiecePicker.Picker.Init`; `PickerExamples.CountLost` is a run where one was).
- Halving makes user priorities 4, 5 and 6 as good as 1, 2 and 3 for a piece that only seeds have, so the higher one may be
  behind (`PieceTypes.HigherFirst`).
- `merkle_num_leafs` gives the least power of two strictly above the number of pieces, twice what rounding up needs if
  and only if that number is a power of two (`Merkle.LeafsRoundUp`).
- The two conversions of metadata ranges are inverse to each other on all requests if and only if the metadata has at
  least 256 bytes (`Metadata.InverseWhen`). When the torrent refuses the metadata only the flags below the end of the
  last range are cleared (`Metadata.MetadataPlugin.ReceivedMetadata`).
- `integer_to_str` prints every 64-bit integer but the least one, whose text ends in `(` (`LazyBdecode.IntegerToStr`).
- `pick_pieces` lists blocks of filtered pieces only if partial pieces are preferred; asked for more blocks than there
  are, it lists one if and only if that is so and the block is free (`PickPieces.FilteredExactly` and the last clause of
  `PickPieces.PickPieces`; `PickExamples.FilteredOffered` gives an example).
- It can list blocks twice when whole pieces are taken two or more at a time, because their run may reach below the piece
  it is taken for, and when a piece is suggested twice (`PickExamples.Repeats`).
- A piece that failed its check keeps the full flag, and has it still when a block from disk begins it again. Its free
  blocks are then not listed unless partial pieces are preferred (`PickExamples.FullHidden`); a pick that falls short
  lists a free block in its reach if and only if the block is not of that kind, nor filtered, or partial pieces are
  preferred (`PickPieces.FoundExactly`). The flag lags behind only while no block of the piece is requested, so the second
  pass over pieces marked full never puts anything aside (`PickPieces.FullIdle`, `PickPieces.PickBackups`).
- A canonical text that is cut off inside a container is accepted if and only if it ends right behind a child, and read
  as the value with its children so far; one that ends right behind the letter that opens a container fails
  (`BdecodeCuts.CutText`, `LazyBdecode.LazyDecoder.CutTrip`).
- After an error the outermost container keeps the children that were read, less the last one if it could not go on itself:
  `li1e` leaves a list of one child and `li1ei` an empty one (`BdecodeCuts.DropExample`).
- Making room without reading back looks at the slot behind the last one of a piece if and only if it comes to a piece
  that is hashed to its end before it has found enough: some room is asked for, something is cached, and the runs at the
  hashing positions of the pieces before that one are too few (`DiskCache.DiskThread.FlushCacheBlocks`). A piece gets
  there by being written out by its last block (`DiskExamples.ReadBehind`).
- The packet buffer compares `idx` with `m_first` plus the capacity without wrapping either. If the last sixteen bits of a
  packet's number have begun a new round since the first packet's, and the number is past the capacity, `at` and `remove`
  look at the slot of another number. `insert` puts the packet there if and only if the end of its window is still in the
  old round, or the distance to the first packet is a power of two, for which one slot too few is reserved; in every
  other case the buffer is an exact map (`PacketBuffer.PacketBuffer.Insert`). `PacketExamples.Overwritten` loses a packet
  that way.
- `isLegalUTF8` has no lower bound for the second byte behind 0xED and 0xF4, so `ED 20 80` is accepted
  (`Utf.LooseExample`); an accepted sequence is the encoding of what it is read as if and only if it is not such a one
  (`Utf.AcceptedIs`).

## Model

| member | source | states |
|---|---|---|
| `PieceTypes.DownloadingMeansWholeFactor` | bittorrent/include/libtorrent/piece_picker.hpp:452-487 | a piece without priority has -1; otherwise its bucket is a multiple of the priority factor exactly if it is being downloaded |
| `PieceTypes.ListedWhen` | bittorrent/include/libtorrent/piece_picker.hpp:464-470 | a piece is in a bucket exactly if we want it, lack it, and some peer or seed has it |
| `PieceTypes.OrdinaryOrder` | bittorrent/include/libtorrent/piece_picker.hpp:464-487 | below user priority 4, fewer peers come first; with as many, first what is being downloaded, then the higher user priority; and nothing else counts |
| `PieceTypes.HalvedOrder` | bittorrent/include/libtorrent/piece_picker.hpp:475-483 | a piece of user priority 4 to 6 stands where one of 1 to 3 with half as many peers does |
| `PieceTypes.TopOrder` | bittorrent/include/libtorrent/piece_picker.hpp:472-473 | a piece of user priority 7 stands where one of 3 without peers does, whatever its own peers |
| `PieceTypes.SeedsOnlyList` | bittorrent/include/libtorrent/piece_picker.hpp:464-487 | seeds decide whether a piece is listed, not where |
| `PieceTypes.RarerFirst` | bittorrent/include/libtorrent/piece_picker.hpp:464-487 | of two pieces alike in all else the one with fewer peers is in no later bucket, and in an earlier one exactly if the difference counts: by peers below user priority 4, by half of them up to 6 |
| `PieceTypes.DownloadingFirst` | bittorrent/include/libtorrent/piece_picker.hpp:464-487 | with as many peers and the same user priority, what is being downloaded is ahead |
| `PieceTypes.TopFirst` | bittorrent/include/libtorrent/piece_picker.hpp:464-487 | user priority 7 is never behind a piece with the same downloading flag, and when it is ahead |
| `PieceTypes.HigherFirst` | bittorrent/include/libtorrent/piece_picker.hpp:464-487 | with as many peers, and not being downloaded, the higher user priority is ahead from two peers on; exactly when with one or none |
| `Buckets.InsertStep` | bittorrent/src/piece_picker.cpp:572-608 | one round of the insertion loop: the displaced piece moves to the end of its bucket, skipping any run of empty buckets; the last round leaves a clean list |
| `Buckets.RemoveStep` | bittorrent/src/piece_picker.cpp:623-648 | one round of the removal loop: the last piece of a bucket fills the hole, skipping empty buckets; the last round leaves a clean list one shorter |
| `Buckets.PromoteMove` | bittorrent/src/piece_picker.cpp:690-707 | moving the first piece of a bucket into the hole and its boundary up keeps the invariant of the way down |
| `Buckets.DemoteMove` | bittorrent/src/piece_picker.cpp:727-744 | the same on the way up, with the last piece of each bucket |
| `Buckets.SwapKeepsClean` | bittorrent/src/piece_picker.cpp:762-789 | exchanging two slots of one bucket, back-pointers included, keeps the list clean |
| `CountingSort.DistributedStep` | bittorrent/src/piece_picker.cpp:1012-1021 | the distribution pass puts each wanted piece in the slot its bucket and rank give, and no other piece there |
| `CountingSort.BoundaryCounts` | bittorrent/src/piece_picker.cpp:976-1044 | in every clean list a boundary is the number of pieces with at most that priority, as the rebuild computes it |
| `CountingSort.BucketContents` | bittorrent/src/piece_picker.cpp:976-1044 | in every clean list a bucket holds exactly the pieces of its priority, also beyond the last boundary |
| `CountingSort.CleanMultiset` | bittorrent/src/piece_picker.cpp:976-1044 | a clean list holds every wanted piece exactly once and nothing else |
| `CountingSort.CleanIsUnique` | bittorrent/src/piece_picker.cpp:544-1044 | two clean lists for the same pieces, incremental or rebuilt, agree but for the order inside buckets and empty buckets at the end |
| `Cursors.TotalCounts` | bittorrent/include/libtorrent/piece_picker.hpp:575-588 | the running totals are the numbers of pieces had, filtered and missing, filtered and had |
| `Cursors.ResetTotals` | bittorrent/src/piece_picker.cpp:95-115 | after a reset the count of filtered pieces is right if and only if no filtered piece was cut off |
| `Downloads.EraseViews` | bittorrent/src/piece_picker.cpp:200-215 | and leaves the block records of every other piece as they were |
| `Downloads.QueueErase` | bittorrent/src/piece_picker.cpp:200-215 | erasing a piece this way keeps the whole download queue consistent and only that piece disappears |
| `Downloads.QueueInsert` | bittorrent/src/piece_picker.cpp:163-197 | inserting a piece at its sorted place with the next slab shows it with fresh blocks and changes no other |
| `Downloads.QueueSetBlock` | bittorrent/src/piece_picker.cpp:2090-2482 | changing one block and its counters keeps the queue consistent; the piece stays listed if any counter is positive |
| `Downloads.AskedFor` | bittorrent/src/piece_picker.cpp:2090-2149 | a block that has not come can be asked for: it shows the peer and one more of them, and no other block changes |
| `Downloads.HasCome` | bittorrent/src/piece_picker.cpp:2181-2297 | a block that has come cannot be asked for nor its requests dropped; if its write fails it is as if it had never been asked for |
| `Downloads.OnDisk` | bittorrent/src/piece_picker.cpp:2256-2370 | a block on disk can no more be asked for, dropped or fail |
| `Downloads.AbortUndoesRequest` | bittorrent/src/piece_picker.cpp:2090-2482 | aborting a request just made restores the piece if and only if the block had no earlier peer |
| `FullFlags.FreeNotFull` | bittorrent/src/piece_picker.cpp:2041-2045 | a downloading piece with a free block does not have all its blocks active |
| `FullFlags.FullRequested` | bittorrent/src/piece_picker.cpp:2090-2149 | a request keeps this invariant: a piece marked full has all its blocks active, or none requested |
| `FullFlags.FullWritten` | bittorrent/src/piece_picker.cpp:2181-2254 | so does an arrival |
| `FullFlags.FullFailed` | bittorrent/src/piece_picker.cpp:2256-2297 | so does a failed write |
| `FullFlags.FullAborted` | bittorrent/src/piece_picker.cpp:2405-2482 | so does a dropped request |
| `PiecePicker.Picker.Init` | bittorrent/src/piece_picker.cpp:87-132 | records reset but for priorities, no downloads, cursors right; the whole picker valid if and only if no filtered piece was cut off |
| `PiecePicker.Picker.Add` | bittorrent/src/piece_picker.cpp:544-609 | a newly wanted piece is listed at any place of its bucket; the list is clean and only back-pointers moved |
| `PiecePicker.Picker.Displace` | bittorrent/src/piece_picker.cpp:572-608 | the insertion loop as a whole makes the list clean |
| `PiecePicker.Picker.Remove` | bittorrent/src/piece_picker.cpp:611-653 | a piece that lost its priority is unlisted; the list is clean and only back-pointers moved |
| `PiecePicker.Picker.CloseGap` | bittorrent/src/piece_picker.cpp:623-648 | the removal loop as a whole makes the list clean |
| `PiecePicker.Picker.Update` | bittorrent/src/piece_picker.cpp:657-760 | a piece whose priority changed moves to its new bucket, up or down or not at all, over any empty buckets; the list is clean |
| `PiecePicker.Picker.Promote` | bittorrent/src/piece_picker.cpp:686-712 | the way down ends in the target bucket with a clean list |
| `PiecePicker.Picker.Demote` | bittorrent/src/piece_picker.cpp:723-750 | the way up ends in the target bucket with a clean list |
| `PiecePicker.Picker.Shuffle` | bittorrent/src/piece_picker.cpp:762-789 | exchanging a piece with any of its bucket keeps the list clean |
| `PiecePicker.Picker.UpdatePieces` | bittorrent/src/piece_picker.cpp:976-1044 | the counting-sort rebuild gives a clean list and clears the dirty flag |
| `PiecePicker.Picker.IncRefcount` | bittorrent/src/piece_picker.cpp:899-916 | one more peer for one piece, modulo the 16-bit field; everything else of the picker stays valid |
| `PiecePicker.Picker.DecRefcount` | bittorrent/src/piece_picker.cpp:918-930 | one peer fewer |
| `PiecePicker.Picker.IncRefcountAll` | bittorrent/src/piece_picker.cpp:853-867 | a seed joins; the list becomes dirty exactly for the first one |
| `PiecePicker.Picker.DecRefcountAll` | bittorrent/src/piece_picker.cpp:869-897 | a seed leaves, dirty exactly for the last one; with no seed every piece has a peer fewer |
| `PiecePicker.Picker.IncRefcountMask` | bittorrent/src/piece_picker.cpp:932-952 | one more peer for exactly the pieces in the mask; dirty exactly if there is one |
| `PiecePicker.Picker.DecRefcountMask` | bittorrent/src/piece_picker.cpp:954-974 | one peer fewer for exactly the pieces in the mask |
| `PiecePicker.Picker.AddDownloadPiece` | bittorrent/src/piece_picker.cpp:163-197 | a piece just flagged gets its place, a slab of its own and cleared blocks; no other piece changes |
| `PiecePicker.Picker.EraseDownloadPiece` | bittorrent/src/piece_picker.cpp:200-215 | a piece leaves the list and loses its flag; the queue stays consistent and no other piece changes |
| `PiecePicker.Picker.MarkAsDownloading` | bittorrent/src/piece_picker.cpp:2090-2149 | false exactly if the block had arrived; the piece shows the request, no other piece changes, its bucket follows, and the full flag is refreshed exactly when the block was free |
| `PiecePicker.Picker.MarkAsWriting` | bittorrent/src/piece_picker.cpp:2181-2254 | false exactly if the block or the whole piece had arrived; the piece shows the arrival; no other changes |
| `PiecePicker.Picker.MarkAsFinished` | bittorrent/src/piece_picker.cpp:2299-2370 | the piece shows the block on disk, no other changes; nothing happens for a piece we have |
| `PiecePicker.Picker.RestorePiece` | bittorrent/src/piece_picker.cpp:820-851 | a failed piece is downloaded by nobody and back in its bucket; no other piece changes |
| `PiecePicker.Picker.WriteFailed` | bittorrent/src/piece_picker.cpp:2256-2297 | a block whose write failed is free again; the piece leaves exactly if no block is active |
| `PiecePicker.Picker.AbortDownload` | bittorrent/src/piece_picker.cpp:2405-2482 | a peer drops its request; the last one frees the block, and the piece leaves exactly if no block is active |
| `PiecePicker.Picker.WeHave` | bittorrent/src/piece_picker.cpp:1090-1177 | a piece we have leaves list, queue and wanted range; everything stays valid and nothing else changes |
| `PiecePicker.Picker.WeDontHave` | bittorrent/src/piece_picker.cpp:1046-1088 | a bad piece is wanted again, listed and counted; nothing happens if we did not have it |
| `PiecePicker.Picker.SetPiecePriority` | bittorrent/src/piece_picker.cpp:1179-1277 | priority stored, bucket, totals and cursors follow; true exactly if the filtered state changes |
| `PickerExamples.CountLost` | bittorrent/src/piece_picker.cpp:87-132 | a filtered piece that is cut off leaves the picker with a wrong count |
| `PickerExamples.AbortForgets` | bittorrent/src/piece_picker.cpp:2405-2482 | a second peer requests a block of the first and drops it: the piece does not show what it did before |
| `PickLaws.RunIs` | bittorrent/src/piece_picker.cpp:1966-1986 | the run around a piece is the longest one of pickable pieces that reaches no further down, and is no longer, than asked |
| `PickLaws.VisitsOnce` | bittorrent/src/piece_picker.cpp:1440-1585 | unless runs of whole pieces are taken, a list without repetitions touches a piece once at most, and only wanted pieces that are not ignored |
| `PickLaws.CountedRun` | bittorrent/src/piece_picker.cpp:1829-1855 | a piece nobody downloads adds blocks of its run only, each once, and all of them unless it is cut short |
| `PickLaws.LawfulPick` | bittorrent/src/piece_picker.cpp:1414-1585 | partial pieces, suggested pieces and the rest never add a block twice between them, unless runs are taken or a piece is suggested twice; and no filtered piece gains blocks unless partial pieces come first |
| `PickLaws.FrequenciesOf` | bittorrent/src/piece_picker.cpp:1440-1483 | in sequential and rarest-first order a block of a piece nobody downloads is listed at most as often as runs reach its piece, and exactly so often when the pick falls short |
| `PickPieces.AddBlocksDownloading` | bittorrent/src/piece_picker.cpp:1861-1964 | only free blocks of a downloading piece are taken or put aside, each once, on parole only from a piece that is exclusively this peer's; taken exactly from pieces that are not to be put aside, and put aside for second or last choice as speeds, peers and whole pieces say; if more are needed, all are, or enough of their kind are put aside; exactly what `WithPiece` says block by block |
| `PickPieces.ChoiceIs` | bittorrent/src/piece_picker.cpp:1894-1940 | what the tests come to: blocks of a piece that other connected peers are at work on go aside, all of them for last choice with whole pieces, else those of another speed, for second choice one speed step away and for last two |
| `PickPieces.ChoicesAppended` | bittorrent/src/piece_picker.cpp:1632-1640 | adding what was put aside lists a block only behind every block in reach of an earlier choice |
| `PickPieces.PartialOffer` | bittorrent/src/piece_picker.cpp:1861-1964 | the offers of a piece in the download list are exactly its free blocks, parole permitting |
| `PickPieces.ExpandPiece` | bittorrent/src/piece_picker.cpp:1966-1986 | the run around a piece |
| `PickPieces.AddBlocks` | bittorrent/src/piece_picker.cpp:1790-1859 | blocks of one piece; if more are still needed the piece was taken completely, or as far as it is free |
| `PickPieces.AddInOrder` | bittorrent/src/piece_picker.cpp:1440-1453 | pieces considered in order, with runs of any length: each block added belongs to a piece, or to the run around one, before which every piece of the order is exhausted; blocks are added as often as pieces of the order reach them; if more are needed every piece was considered |
| `PickPieces.PickPartials` | bittorrent/src/piece_picker.cpp:1414-1438 | partial pieces first, then what was put aside, second choice before last; if more are needed, every free block of every downloading piece was taken; exactly which blocks, in list order, a piece marked full being passed over once enough is put aside of either kind |
| `PickPieces.ReverseOrderInverts` | bittorrent/src/piece_picker.cpp:1498-1508 | the reverse traversal in groups of four visits every bucket once |
| `PickPieces.PickReverse` | bittorrent/src/piece_picker.cpp:1489-1520 | rarest first in reverse, as one order of all listed pieces: no block out of order, none more often than the order reaches it, and if more are needed every listed piece was considered |
| `PickPieces.PickRandom` | bittorrent/src/piece_picker.cpp:1536-1585 | the scan from a random piece terminates, and if more blocks are needed every piece was taken; without runs each piece is taken once at most, suggested ones never |
| `PickPieces.PickSequential` | bittorrent/src/piece_picker.cpp:1455-1483 | the range between the cursors misses no wanted piece, in either direction; no block out of order, with runs of any length; and how often each is added |
| `PickPieces.FallsShort` | bittorrent/src/piece_picker.cpp:1371-1719 | a pick that falls short leaves no offer it could have found, and started no piece too early |
| `PickPieces.ListIsBestFirst` | bittorrent/src/piece_picker.cpp:1521-1534 | going through a clean list in order is rarest first: every wanted piece of a lower bucket is exhausted before |
| `PickPieces.ReverseIsBestFirst` | bittorrent/src/piece_picker.cpp:1489-1520 | going through its buckets in reverse is that order in reverse |
| `PickPieces.OwnPiece` | bittorrent/src/piece_picker.cpp:1966-1986 | without runs of two or more a block belongs to the piece it is picked for, so that no piece is started before those ahead of it are taken |
| `PickPieces.BestInTurn` | bittorrent/src/piece_picker.cpp:1371-1719 | without long runs no block is listed while a piece that comes before its own by position, or by peers and all else alike, has one on offer that is not to be put aside |
| `PickPieces.PickRarest` | bittorrent/src/piece_picker.cpp:1484-1535 | rebuilds the list if it is dirty; every block belongs to a piece, or the run around one, ahead of which all rarer ones are exhausted; blocks are added as often as the list reaches them, and if more are needed every listed piece was considered; without long runs no block is listed while a rarer piece, by their records, has one on offer |
| `PickPieces.FindBusy` | bittorrent/src/piece_picker.cpp:1611-1638 | all blocks that other peers are asked for of the first downloading piece that has any |
| `PickPieces.FullIdle` | bittorrent/src/piece_picker.cpp:1589-1602 | nothing of a piece marked full is ever put aside: it has no free block, or nobody is at work on it |
| `PickPieces.PickBackups` | bittorrent/src/piece_picker.cpp:1589-1602 | so the second pass, over pieces marked full, changes nothing |
| `PickPieces.PickLeftovers` | bittorrent/src/piece_picker.cpp:1587-1648 | at most the missing number is added, second choice before last, never a second request on parole, and if that is not enough everything put aside was used; a busy block comes last exactly if that is too little, the peer is not on parole and there is one |
| `PickPieces.PickFresh` | bittorrent/src/piece_picker.cpp:1455-1585 | whatever the order, only offers are added, best pieces first with runs of any length; if more blocks are needed every reachable piece was considered; and in an order, how often each block is added |
| `PickPieces.FilteredExactly` | bittorrent/src/piece_picker.cpp:1414-1438 | a block of a filtered piece is listed if and only if it is free and partial pieces come first, once those were taken completely |
| `PickPieces.PickPieces` | bittorrent/src/piece_picker.cpp:1371-1719 | in every mode: only in-range free blocks of pieces the peer has and we lack, filtered or marked full only if partial pieces come first, plus at most one busy block at the end; at most as many as asked for unless whole pieces are preferred; fewer only if every block that could be found was taken, and then in an order exactly the offers in reach; each block of a piece, or of the run around one, ahead of which everything in the order is taken completely or as far as it is free; no block twice, unless runs of whole pieces are taken or a piece is suggested twice, and in an order each as often as suggestions and order reach it; and asked for more than there is, a filtered block if and only if it is free and partial pieces come first; suggested pieces first, in the order given; a block of a piece to be put aside only behind every one in reach of an earlier choice; and without long runs none while a rarer piece, by their records, has one on offer; and a busy block exactly if the free ones are too few and the peer is not on parole, of the first piece that has one |
| `PickPieces.FoundExactly` | bittorrent/src/piece_picker.cpp:1371-1719 | a pick in an order that falls short lists, of the free blocks in its reach, exactly those on offer: not of a filtered piece or one marked full, unless partial pieces come first |
| `PickExamples.FilteredOffered` | bittorrent/src/piece_picker.cpp:1371-1719 | on a picker put in that state by its own operations, a pick lists the free block of a filtered piece if and only if partial pieces are preferred |
| `PickExamples.FullHidden` | bittorrent/src/piece_picker.cpp:1810-1816 | a piece that failed its check and is begun again is still marked full, and its free block is listed if and only if partial pieces are preferred |
| `PickExamples.SomeTwice` | bittorrent/src/piece_picker.cpp:1966-1986 | with runs of whole pieces in a torrent of two pieces or more, or a piece suggested twice, some piece is touched twice |
| `PickExamples.Repeats` | bittorrent/src/piece_picker.cpp:1371-1719 | for every list with a piece suggested twice, and every length of run in sequential or rarest-first order, there is a picker whose pick lists a block twice |
| `DiskBlocks.WriteRun` | bittorrent/src/disk_io_thread.cpp:598-644 | writing a run of cached blocks at its offset puts exactly those blocks on disk, the short last one included |
| `DiskBlocks.WrittenOnce` | bittorrent/src/disk_io_thread.cpp:596-649 | the writes of a flush cover every cached block of the range exactly once with its own bytes, and no other block |
| `DiskBlocks.FlushKeepsOverlay` | bittorrent/src/disk_io_thread.cpp:570-691 | writing the dirty blocks of a range and letting them go shows every reader what it saw before |
| `DiskBlocks.LongestRunBounds` | bittorrent/src/disk_io_thread.cpp:409-425 | no run of cached blocks is longer than the count |
| `DiskBlocks.LongestRunExists` | bittorrent/src/disk_io_thread.cpp:409-425 | and there is one of that length |
| `DiskEntries.NextToHashIs` | bittorrent/src/disk_io_thread.cpp:648 | the hashing position passes exactly the flushed blocks that follow it without a gap |
| `DiskPieces.AloneKeepsRun` | bittorrent/src/disk_io_thread.cpp:2092-2111 | a block without cached neighbours does not change the longest run, so it need not be counted again |
| `DiskPieces.StorePut` | bittorrent/src/disk_io_thread.cpp:2086-2111 | after that the block reads as the buffer and every other as before |
| `DiskPieces.StoreNew` | bittorrent/src/disk_io_thread.cpp:694-732 | so it does for a piece that had no entry |
| `DiskPieces.StoreDirect` | bittorrent/src/disk_io_thread.cpp:2130-2150 | and for a piece of one block, which is written at once |
| `DiskPieces.ServedMore` | bittorrent/src/disk_io_thread.cpp:2057-2165 | one more job after a run of jobs: each block reads as last written |
| `DiskRuns.RunStarts` | bittorrent/src/disk_io_thread.cpp:436-458 | scanning for the longest run finds the first one of its length |
| `DiskRuns.FlushedRun` | bittorrent/src/disk_io_thread.cpp:427-473 | flushing the first longest run leaves the entry without exactly that run, by one write of it |
| `DiskRuns.RunsMore` | bittorrent/src/disk_io_thread.cpp:515-527 | one more round takes the longest run of the first piece that has one of that length |
| `DiskCalls.PostedCalls` | bittorrent/src/disk_io_thread.cpp:660-672 | a flush posts exactly the callbacks it takes out of memory, each once |
| `DiskCalls.PostedIs` | bittorrent/src/disk_io_thread.cpp:655-672 | what is posted: for each cached block with a callback, in order, its place, its length, and as result that length exactly if the write did not fail |
| `DiskReadback.PastEndIs` | bittorrent/src/disk_io_thread.cpp:539-566 | the pieces looked at are those before which too little was found, so one hashed to its end is met if and only if `PastEnd` holds |
| `DiskReadback.FlushedHash` | bittorrent/src/disk_io_thread.cpp:546-562 | flushing the run at the hashing position leaves the entry with exactly that run gone and the position behind it, by one write of that run |
| `DiskExamples.ReadBehind` | bittorrent/src/disk_io_thread.cpp:528-565 | blocks 0 and 1 of a piece of two are written and flushed as one line; a block of another piece and a demand for room later, the slot behind the last one is looked at |
| `DiskCache.DiskThread.WriteRun` | bittorrent/src/disk_io_thread.cpp:598-625 | one write of the whole run at the offset of its first block, coalesced or not |
| `DiskCache.DiskThread.WriteRuns` | bittorrent/src/disk_io_thread.cpp:584-649 | the cached blocks of the range are on disk unless a write failed; the writes are the runs in order; counters follow |
| `DiskCache.DiskThread.FlushRange` | bittorrent/src/disk_io_thread.cpp:570-691 | overlay kept when nothing fails, each run written once, callbacks posted once, range emptied, counters lowered by the returned number; a failed write is reported and cleared |
| `DiskCache.DiskThread.FlushContiguousBlocks` | bittorrent/src/disk_io_thread.cpp:427-473 | exactly the first longest run (or the run at the hashing position) is flushed by one write if it is long enough, else nothing happens |
| `DiskCache.DiskThread.FlushLru` | bittorrent/src/disk_io_thread.cpp:502-514 | exactly the shortest prefix of pieces in order of use that holds enough blocks is written out, in order, and dropped |
| `DiskCache.DiskThread.FlushLargest` | bittorrent/src/disk_io_thread.cpp:515-527 | round by round the first longest run of all, exactly as many as it takes, and a piece goes with its last block; every write covers no more blocks than the one before and no fewer than any run left |
| `DiskCache.DiskThread.FlushHashable` | bittorrent/src/disk_io_thread.cpp:539-566 | the runs at the hashing positions of the shortest prefix of pieces that holds enough are written in order and leave; out of range exactly as `PastEnd` says |
| `DiskCache.DiskThread.FlushCacheBlocks` | bittorrent/src/disk_io_thread.cpp:482-568 | under each algorithm exactly which blocks go, in which writes and what list is left: the least recently used pieces, or the longest runs, or the runs about to be hashed and then the longest; at least the asked number or all; every piece whose writes succeed reads as before, and callbacks are posted for what went; the slot behind a piece is looked at if and only if reading back is avoided, room is asked for, something is cached and `PastEnd` holds |
| `DiskCache.DiskThread.PutBlock` | bittorrent/src/disk_io_thread.cpp:2082-2112 | the block reads as the buffer, every other as before, and the counters agree |
| `DiskCache.DiskThread.CacheBlock` | bittorrent/src/disk_io_thread.cpp:694-732 | a new entry exactly for a piece of more than one block |
| `DiskCache.DiskThread.WriteBlock` | bittorrent/src/disk_io_thread.cpp:2076-2154 | whichever path a block takes, it reads as its buffer afterwards and every other block as before; exactly which run goes to disk and what list is left; its callback is posted, due, or the block it replaces loses its own |
| `DiskCache.DiskThread.WriteDirect` | bittorrent/src/disk_io_thread.cpp:2130-2150 | the only block of a piece is written at once and its callback posted with its length, or -1 if the write failed |
| `DiskCache.DiskThread.Serve` | bittorrent/src/disk_io_thread.cpp:2057-2162 | any run of write jobs and demands for room under any of the three algorithms: each block of a piece whose writes succeed reads as last written, and the cache size counts the cached blocks; and of each callback as many as were given are posted, due, or lost with a replaced block |
| `Bencode.ParseLength` | bittorrent/src/lazy_bdecode.cpp:66-77 | a length and its colon are read back |
| `BdecodeGrammar.AfterEncoded` | bittorrent/src/lazy_bdecode.cpp:85-201 | any encoded value at any place is read back, ends where it should and spans its text, if the limits allow; else refused |
| `BdecodeGrammar.KidsEncoded` | bittorrent/src/lazy_bdecode.cpp:85-201 | so are the remaining children of a container after any that were read |
| `BdecodeGrammar.DecodeInvertsEncode` | bittorrent/src/lazy_bdecode.cpp:95-201 | decoding the canonical text of a value, whatever follows it, gives it back with its section if and only if the depth and item limits admit it |
| `BdecodeGrammar.SectionIs` | bittorrent/include/libtorrent/lazy_entry.hpp:212-216 | the section of the value is its text |
| `BdecodeLoose.LengthFound` | bittorrent/src/lazy_bdecode.cpp:119-130 | a length is found exactly where digits and a colon are, with the number they spell |
| `BdecodeLoose.SpelledIsRead` | bittorrent/src/lazy_bdecode.cpp:95-201 | text that spells an entry, canonical or not, is read as that entry if the limits allow |
| `BdecodeLoose.ReadIsSpelled` | bittorrent/src/lazy_bdecode.cpp:95-201 | what is read as an entry spells it, within the limits |
| `BdecodeLoose.AcceptsExactly` | bittorrent/src/lazy_bdecode.cpp:95-201 | the decoder accepts exactly what begins with text that spells an entry within the limits, and reads that entry |
| `BdecodeLoose.ErrorsMean` | bittorrent/src/lazy_bdecode.cpp:95-201 | each error code says what is wrong at the place it names |
| `BdecodeCuts.CutAfter` | bittorrent/src/lazy_bdecode.cpp:95-201 | the rest of an encoded value from which the end is missing is left open and read as its children so far, or refused, as below |
| `BdecodeCuts.CutKids` | bittorrent/src/lazy_bdecode.cpp:105-197 | so are the remaining children of a container |
| `BdecodeCuts.CutText` | bittorrent/src/lazy_bdecode.cpp:95-201 | of the proper prefixes of a value's text exactly the empty one and those that end right behind a child are accepted, the first as no value and the others as the value with its children so far; all others fail |
| `BdecodeCuts.CutExample` | bittorrent/src/lazy_bdecode.cpp:95-201 | li1e is accepted and read as the list of 1 |
| `BdecodeCuts.OpeningExample` | bittorrent/src/lazy_bdecode.cpp:95-201 | ll is refused |
| `BdecodeCuts.DropExample` | bittorrent/src/lazy_bdecode.cpp:51-61 | li1ei is refused and leaves an empty list |
| `LazyCells.PathKept` | bittorrent/src/lazy_bdecode.cpp:95-201 | the pointers on the stack stay right as long as their arrays do |
| `LazyCells.GrowOpen` | bittorrent/src/lazy_bdecode.cpp:214-240 | growing the innermost container moves its children and leaves no pointer on the stack dangling |
| `LazyCells.HoldsAround` | bittorrent/src/lazy_bdecode.cpp:95-201 | when the decoder stops with containers open the root holds all of them, each with its children so far |
| `LazyBdecode.LazyDecoder.Abandon` | bittorrent/src/lazy_bdecode.cpp:51-61 | after a failure the root holds the outermost container without the child that was dropped |
| `LazyBdecode.LazyDecoder.ReadValue` | bittorrent/src/lazy_bdecode.cpp:159-197 | after one value the rest of the loop still leads to what the grammar says |
| `LazyBdecode.LazyDecoder.Step` | bittorrent/src/lazy_bdecode.cpp:105-197 | so it does after one round, which moves on |
| `LazyBdecode.LazyDecoder.Decode` | bittorrent/src/lazy_bdecode.cpp:95-201 | on every input, a cut or malformed one included, the result, error, error position, end and the entry tree left are those of the recursive grammar |
| `LazyBdecode.LazyDecoder.ToEntry` | bittorrent/src/entry.cpp:320-354 | assigning a decoded entry gives the value that stands in the input |
| `LazyBdecode.LazyDecoder.RoundTrip` | bittorrent/src/entry.cpp:320-354 | encode, decode, assign: the same value, and the decoder stops right behind it, if and only if the limits admit the value |
| `LazyBdecode.LazyDecoder.CutTrip` | bittorrent/src/entry.cpp:320-354 | encode, cut, decode, assign: the value with its children so far if the cut is right behind a child, and no value otherwise |
| `LazyBdecode.DeliverContainer` | bittorrent/src/lazy_bdecode.cpp:165-170 | opening a container and carrying on is reading a container |
| `LazyBdecode.IntegerToStr` | bittorrent/src/entry.cpp:64-82 | the text of every integer above the least; that one ends in an opening parenthesis |
| `PacketBuffer.WindowDiffers` | bittorrent/src/packet_buffer.cpp:123-124 | within one turn no two indices share a slot |
| `PacketBuffer.ComparesHalf` | bittorrent/src/utp_stream.cpp:119-130 | the comparison of indices: one comes before another exactly if it is less than half a circle before it |
| `PacketBuffer.SlotOfBits` | bittorrent/src/packet_buffer.cpp:123-124 | the slot of a number is that of its last sixteen bits |
| `PacketBuffer.PacketBuffer.Reserve` | bittorrent/src/packet_buffer.cpp:150-171 | a power of two, large enough and less than twice that; every packet keeps its number, wherever the sixteen bits wrap |
| `PacketBuffer.PacketBuffer.WrappedRoom` | bittorrent/src/packet_buffer.cpp:104-111 | a number in the next round gets enough room unless the window has not reached that round or the distance is a power of two |
| `PacketBuffer.PacketBuffer.At` | bittorrent/src/packet_buffer.cpp:135-148 | the map's value at the number looked for, which is the given one unless that is astray |
| `PacketBuffer.PacketBuffer.Stretch` | bittorrent/src/packet_buffer.cpp:80-113 | the ends enclose old and new numbers, and the storage has room for all, no more than twice as much, if and only if the new one is not misplaced |
| `PacketBuffer.PacketBuffer.Insert` | bittorrent/src/packet_buffer.cpp:68-133 | the map with the number set, or the one of its slot if and only if it is misplaced (removed for a null packet); the old value returned, ends and size exact |
| `PacketBuffer.PacketBuffer.Remove` | bittorrent/src/packet_buffer.cpp:173-212 | the map without the number, or without the one of its slot if it is astray; the old value returned, ends and size exact |
| `PacketExamples.Overwritten` | bittorrent/src/packet_buffer.cpp:68-148 | packets 0xfff8 and 0x10008 in sixteen slots: the second takes the place of the first, and asking for the first gives the second |
| `Bandwidth.AssignBandwidth` | bittorrent/src/bandwidth_queue_entry.cpp:52-72 | the grant is what is owed or the share of the most limiting channel, and is taken out of every limited channel |
| `Bandwidth.AccountedOne` | bittorrent/src/bandwidth_manager.cpp:136-221 | the grants through a channel sum to at most its distributed quota and are what its quota lost |
| `Bandwidth.SharesOfRound` | bittorrent/src/bandwidth_queue_entry.cpp:52-72 | in every round a request that stays gets what it is owed or the least of its channels' shares, each the refilled quota times its priority by the sum of priorities |
| `Bandwidth.NoDebt` | bittorrent/src/bandwidth_manager.cpp:143-213 | over a round a channel gives no more than its quota, refill and returns, and a quota not in debt stays so |
| `Bandwidth.RoundRate` | bittorrent/src/bandwidth_limit.cpp:60-66 | in a round a channel in use gains its limit times the time to the nearest byte, and keeps three seconds' worth at most |
| `Bandwidth.OneServed` | bittorrent/src/bandwidth_manager.cpp:136-221 | one channel over a round: what its refill, its returns and its grants do to its books and to the bytes held by its requests |
| `Bandwidth.RanMore` | bittorrent/src/bandwidth_manager.cpp:87-221 | one more event after a run keeps the bounds |
| `Bandwidth.BandwidthManager.RequestBandwidth` | bittorrent/src/bandwidth_manager.cpp:87-121 | granted at once exactly if no channel limits it; else queued with the limited channels only |
| `Bandwidth.BandwidthManager.DropDisconnecting` | bittorrent/src/bandwidth_manager.cpp:150-174 | requests of disconnecting peers leave, what they were granted goes back to each of their channels, queued bytes follow |
| `Bandwidth.BandwidthManager.AssignAll` | bittorrent/src/bandwidth_manager.cpp:194-213 | every request gets its share, finished ones leave, queued bytes are the sum still owed |
| `Bandwidth.BandwidthManager.ShareOut` | bittorrent/src/bandwidth_manager.cpp:176-213 | weights, refills and grants of one round together, each channel's weight and distributed quota included |
| `Bandwidth.BandwidthManager.UpdateQuotas` | bittorrent/src/bandwidth_manager.cpp:136-221 | a round as a whole: who leaves, who gets which share of which quota, what each channel gave, got back and keeps; channels without a limit are untouched; queued bytes stay exact |
| `Bandwidth.BandwidthManager.Run` | bittorrent/src/bandwidth_manager.cpp:87-221 | over any run of requests, rounds and changed limits: the limit in force is the last one set; refills are at most that limit times the time of each round, half a byte a round for rounding, none without a round; returns at most what was asked for; use never exceeds what a channel had and what came in; no channel out of debt gets into debt; and through a channel with a limit throughout, the bytes that requests hold or were told are those held at first, plus use, less returns, at most the first quota and that inflow more |
| `FileLayout.FileStorage.AddFile` | bittorrent/src/file_storage.cpp:294-336 | a file goes to the end at the offset where the files end; a negative size counts as none |
| `FileLayout.FileStorage.FileAtOffset` | bittorrent/src/file_storage.cpp:202-215 | the last file starting at or before an offset; it holds the byte there, if there is one |
| `FileLayout.FileStorage.MapBlock` | bittorrent/src/file_storage.cpp:217-256 | non-empty slices of strictly later files, empty files skipped, that join to exactly the range |
| `FileLayout.FileStorage.MapFile` | bittorrent/src/file_storage.cpp:280-292 | piece and place in it are the file's place in the torrent |
| `FileLayout.FileStorage.MapFileAndBack` | bittorrent/src/file_storage.cpp:217-292 | mapping a range of a file to a piece and back gives exactly that slice |
| `FileLayout.FileStorage.PieceSize` | bittorrent/src/file_storage.cpp:55-69 | the piece length, and for the last piece what is left |
| `FileLayout.FileStorage.Optimize` | bittorrent/src/file_storage.cpp:528-622 | terminates; the given files and the pads and no others; offsets are prefix sums; large files aligned to 8 KiB; at most one pad of less than 8 KiB for each, and only where no file left would have fit; and for every limit what comes to each place is the file or pad the rules choose |
| `FileLayout.InLineFile` | bittorrent/src/file_storage.cpp:541-597 | the file taken by position is the one the rules choose among those that wait, and the others keep their order |
| `FileLayout.InLinePad` | bittorrent/src/file_storage.cpp:598-625 | a pad comes exactly where a large file has its turn at an unaligned offset and nothing that waits fits |
| `FileLayout.ArrangedSizes` | bittorrent/src/file_storage.cpp:541-597 | so a file at an aligned offset not behind a pad is at least as large as every given file after it, and one put before a large file the largest that fits |
| `FileLayout.PlacedPad` | bittorrent/src/file_storage.cpp:598-619 | a pad in front of a large file fills up to the next multiple of 8 KiB |
| `FileLayout.PlacedAll` | bittorrent/src/file_storage.cpp:528-622 | when all are placed every promise about the layout holds |
| `FileLayout.CoversGathers` | bittorrent/src/file_storage.cpp:217-256 | for any content, the slices read in order are the bytes of the range |
| `FileLayout.SameFile` | bittorrent/src/file_storage.cpp:202-215 | no byte belongs to two files |
| `FileLayout.PiecesAddUp` | bittorrent/src/file_storage.cpp:55-69 | the piece sizes sum to the total and are positive and at most the piece length |
| `Merkle.NumLeafs` | bittorrent/src/torrent_info.cpp:422-428 | a power of two above the number of pieces, at most twice it |
| `Merkle.LeafsRoundUp` | bittorrent/src/torrent_info.cpp:422-428 | it is the least power of two that suffices if and only if the number of pieces is no power of two |
| `Merkle.NodeIsRoot` | bittorrent/src/create_torrent.cpp:561-577 | every node of a hashed tree is the recursive Merkle root of the leaves under it |
| `Merkle.TruePathClimbs` | bittorrent/src/torrent_info.cpp:1076-1096 | the siblings of the full tree lead from any node to the root, through nodes of the tree |
| `Merkle.ClimbIsTrue` | bittorrent/src/torrent_info.cpp:1023-1072 | whatever leads to the true root is part of the tree, or the place on the path is returned at which two different pairs of hashes have the same hash |
| `Merkle.MerkleTree.Build` | bittorrent/src/create_torrent.cpp:550-578 | padded leaves, every inner node the hash of its children, the root that of the recursive definition |
| `Merkle.MerkleTree.BuildMerkleList` | bittorrent/src/torrent_info.cpp:1076-1096 | the piece, all siblings on its way and the root, with the tree's hashes |
| `Merkle.MerkleTree.AddMerkleNodes` | bittorrent/src/torrent_info.cpp:1023-1072 | true exactly if the list leads to the root; then exactly the nodes on the way are taken over, else nothing changes |
| `PeerList.ConnectOrder` | bittorrent/src/policy.cpp:1786-1818 | better-to-connect is a strict weak order |
| `PeerList.EraseOrder` | bittorrent/src/policy.cpp:1763-1783 | better-to-erase is a strict weak order |
| `PeerList.ConnectPrefers` | bittorrent/src/policy.cpp:1786-1818 | what makes a peer better to connect to, field by field, in order |
| `PeerList.ErasePrefers` | bittorrent/src/policy.cpp:1763-1783 | what makes a peer better to forget, field by field, in order |
| `PeerList.FindingsOk` | bittorrent/src/policy.cpp:668-727 | what a scan finds is a best peer to connect to and a stalest one to forget |
| `PeerList.Policy.ErasePeer` | bittorrent/src/policy.cpp:417-466 | one peer leaves; candidate and seed counts and the round robin index follow |
| `PeerList.Policy.ScanPeer` | bittorrent/src/policy.cpp:668-727 | one peer looked at, as the scan of the list says, with saved indices surviving an erasure |
| `PeerList.Policy.Scan` | bittorrent/src/policy.cpp:655-728 | the next 300 peers from the round robin index, each once, with exactly the findings of scanning them in that order |
| `PeerList.Policy.FindConnectCandidate` | bittorrent/src/policy.cpp:633-751 | none, or a peer that may be connected to, field by field, and that no other such peer scanned is better than, of equals the last one; who is forgotten: exactly those the scan says, not connected, not to connect to, and after a failure or from resume data only |
| `Utf.StepSound` | bittorrent/src/ConvertUTF.cpp:226-254 | strict reading of UTF-16 gives a scalar value whose encoding stands there |
| `Utf.StepComplete` | bittorrent/src/ConvertUTF.cpp:226-254 | every encoded scalar value is read |
| `Utf.Step8Complete` | bittorrent/src/ConvertUTF.cpp:295-364 | every UTF-8 encoding of a scalar value is legal and read back |
| `Utf.AcceptedIs` | bittorrent/src/ConvertUTF.cpp:295-364 | every accepted UTF-8 sequence is read as a scalar value, and its bytes are that value's encoding if and only if it is not 0xED or 0xF4 followed by less than 0x80 |
| `Utf.TightIs` | bittorrent/src/ConvertUTF.cpp:295-364 | the bytes consumed are the encoding of the code points if and only if none of their sequences has that form |
| `Utf.StrictSound` | bittorrent/src/ConvertUTF.cpp:226-254 | in strict mode the words consumed are the encoding of the code points |
| `Utf.LooseExample` | bittorrent/src/ConvertUTF.cpp:295-364 | ED 20 80 is accepted as U+B800, which is encoded as EB A0 80 |
| `Utf.Step8Kinds` | bittorrent/src/ConvertUTF.cpp:343-364 | what cannot be read, or is no scalar value, is no encoding of one |
| `Utf.ConvertUTF16toUTF8` | bittorrent/src/ConvertUTF.cpp:214-280 | on every source, stops between code points with the encoding of exactly what the consumed words are read as, leniently or strictly; in strict mode an error only where no scalar value stands; all of a well-formed prefix unless the next code point does not fit |
| `Utf.ConvertUTF8toUTF16` | bittorrent/src/ConvertUTF.cpp:336-405 | on every source, stops between code points with the encoding of exactly what the consumed bytes are read as, which are scalar values and stand there exactly as `TightIs` says; an error only where none is encoded; all of a well-formed prefix unless the next does not fit |
| `Utf.ConvertUTF32toUTF8` | bittorrent/src/ConvertUTF.cpp:409-458 | what was consumed, cleaned of bad code points, is encoded, and success means there was none too large; all of a well-formed prefix unless the next does not fit |
| `Utf.ConvertUTF8toUTF32` | bittorrent/src/ConvertUTF.cpp:462-520 | the same into UTF-32 |
| `Utf.RoundTrip16` | bittorrent/src/ConvertUTF.cpp:214-405 | UTF-16 to UTF-8 and back is the identity on every text of scalar values |
| `Utf.RoundTrip32` | bittorrent/src/ConvertUTF.cpp:409-520 | UTF-32 to UTF-8 and back is the identity on every text of scalar values |
| `Metadata.Adjoint` | bittorrent/src/metadata_transfer.cpp:64-92 | rounding blocks up to bytes and bytes down to blocks are adjoint |
| `Metadata.OffsetIdentity` | bittorrent/src/metadata_transfer.cpp:69-99 | converting a request to bytes, back and again gives the same bytes, for every size |
| `Metadata.InverseWhen` | bittorrent/src/metadata_transfer.cpp:69-99 | the conversions are inverse on all requests if and only if there are at least 256 bytes |
| `Metadata.RangeCovered` | bittorrent/src/metadata_transfer.cpp:148-156 | the blocks a received request flags have all their bytes |
| `Metadata.AllCovered` | bittorrent/src/metadata_transfer.cpp:158-163 | with all 256 flags set every byte was copied |
| `Metadata.MetadataPlugin.ReceivedMetadata` | bittorrent/src/metadata_transfer.cpp:134-181 | exactly the given bytes are added to those copied, which are forgotten with the buffer; the flags are those set before and the new ones; the torrent is asked exactly when all are set, and then every byte was copied; what a refusal clears |
| `Metadata.MetadataPlugin.OnData` | bittorrent/src/metadata_transfer.cpp:447-456 | the same for a whole message, from any state with the same total size, and its bytes count as progress |
| `Metadata.MetadataPlugin.MetadataRequest` | bittorrent/src/metadata_transfer.cpp:544-576 | the first run of 64 blocks with the least score, and only its counts rise |
| `Metadata.MetadataPlugin.CancelMetadataRequest` | bittorrent/src/metadata_transfer.cpp:187-195 | the counts of the range fall by one, not below zero |

## Left out

- PickPieces.PickPieces: how often the random scan lists a block is stated only without runs of two or more whole pieces; with them it may or may not repeat one, as the start falls. Blocks of a piece whose full flag lags behind are outside the order of choices: with partial pieces preferred it is passed over once enough is put aside of either kind.
- PickPieces.AddBlocksDownloading: peers are numbers, and whether one is connected is part of the block's record.
- DiskCache.DiskThread.FlushCacheBlocks: what stands behind the last slot of a piece may read as cached or not, but nothing of it is written; entries of the read cache, which are dropped first, are not modelled.
- DiskCache.DiskThread.WriteRun: a failed write may leave any bytes in its own piece, and its error is noticed by the flush that made it.
- LazyBdecode.LazyDecoder.Decode: integers are unbounded, so lengths that overflow 64 bits in `parse_int` are not modelled, nor are failed allocations; the extent of a container that did not end is whatever it was before.
- LazyBdecode.LazyDecoder.RoundTrip: covers values whose integers lie above the least 64-bit one, since that one is not printed.
- PacketBuffer.PacketBuffer.Insert: a number is less than half the circle from all live ones, beyond which sixteen bits do not order two numbers; after a misplaced packet only `at` is described.
- Metadata.MetadataPlugin.ReceivedMetadata: the total size is the same in every message; sizes are unbounded integers.
- Bandwidth.BandwidthManager.UpdateQuotas: amounts are unbounded integers, and what a peer does with its bytes is not modelled.
- FileLayout.FileStorage.Optimize: times, hashes and bases of files in parallel arrays are not moved along; names are numbers.
- PeerList.Policy.FindConnectCandidate: peers are values; pings to the DHT, the external address and the lookup of address owners are parameters or gone.
- The regions counter `m_sparse_regions`, `distributed_copies`, `clear_peer`, `piece_info` and other queries of the piece picker.
- The compact layout of the piece record with 9-bit peer counts and 18-bit indices; the 14-bit wrap of the peers of one block.
- Pointers into one array of block records are slab numbers, so reallocation is not modelled.
- Block sizes other than 16 KiB in the disk cache, which `contiguous_blocks` has built in.
- Reading through the cache, hashing, expiry, statistics, sockets, locks, clocks and alerts.
- UTF-16 to UTF-32 and back directly, hex and base64, URL parsing, the Bloom filter and the chained buffer: nothing in them is harder than what is here.
- Connecting, banning and closing peers, `erase_peers` and `set_seed`: they need the connections, which are not part of this model.
- Merkle.MerkleTree.AddMerkleNodes: SHA-1 is any function of two hashes.
- Reading piece hashes from files, and the info dictionary around the tree and the files.
