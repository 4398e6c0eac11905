/** The order, alignment and padding of the files of a torrent. */
module FileLayout {

  const ALIGNMENT: int := 8 * 1024

  /** What names a file: its place in the torrent as given, or the number of a padding file. */
  datatype Name = Given(id: nat) | Padding(number: nat)

  datatype File = File(name: Name, size: nat, offset: nat, padFile: bool)

  function Sum(files: seq<File>): nat {
    if files == [] then 0 else Sum(files[..|files| - 1]) + files[|files| - 1].size
  }

  /** A file without its offset. */
  function Bare(f: File): File {
    f.(offset := 0)
  }

  ghost function Bares(files: seq<File>): multiset<File> {
    if files == [] then multiset{} else Bares(files[..|files| - 1]) + multiset{Bare(files[|files| - 1])}
  }

  /** The files that padding is for. */
  predicate Large(f: File, limit: int) {
    !f.padFile && f.size > limit
  }

  function CountLarge(files: seq<File>, limit: int): nat {
    if files == [] then 0 else CountLarge(files[..|files| - 1], limit) + if Large(files[|files| - 1], limit) then 1 else 0
  }

  /** Every file starts where the ones before it end. */
  ghost predicate Laid(files: seq<File>, n: nat) {
    n <= |files| && forall k | 0 <= k < n :: files[k].offset == Sum(files[..k])
  }

  /** The limit in force: negative for no padding, else at least the alignment. */
  function Clamped(limit: int): int {
    if 0 <= limit < ALIGNMENT then ALIGNMENT else limit
  }

  /** Large files start at aligned offsets. */
  ghost predicate Aligned(files: seq<File>, n: nat, limit: int) {
    n <= |files| && (limit >= 0 ==> forall k | 0 <= k < n && Large(files[k], limit) :: files[k].offset % ALIGNMENT == 0)
  }

  /** Without padding, the file at an aligned offset is at least as large as every file after it. */
  ghost predicate LargestFirst(files: seq<File>, n: nat, limit: int) {
    n <= |files| && (limit < 0 ==> forall j, k | 0 <= k < n && files[k].offset % ALIGNMENT == 0 && k < j < |files| ::
                       files[j].size <= files[k].size)
  }

  ghost predicate PadsOk(pads: seq<File>) {
    forall k | 0 <= k < |pads| :: pads[k].padFile && pads[k].name == Padding(k) && 0 < pads[k].size < ALIGNMENT
  }

  ghost predicate AllGiven(files: seq<File>) {
    forall f | f in files :: f.name.Given?
  }

  /** No file that was still to be placed would have fit where a pad is. */
  ghost predicate PadsNeeded(files: seq<File>, n: nat) {
    n <= |files| && forall p, j | 0 <= p < n && p < j < |files| && files[p].name.Padding? && files[j].name.Given? ::
      files[j].size > files[p].size
  }

  /** So far pads were only added where needed, and only files as given are left. */
  ghost predicate Needed(files: seq<File>, i: nat) {
    PadsNeeded(files, i) && forall j | i <= j < |files| :: files[j].name.Given?
  }

  lemma NeededMove(files: seq<File>, i: nat, index: nat)
    requires Needed(files, i) && i <= index < |files|
    ensures Needed(Moved(files, index, i), i)
  {
    MovedAt(files, index, i);
    hide Moved;
  }

  lemma NeededNext(files: seq<File>, i: nat, off: nat)
    requires Needed(files, i) && i < |files|
    ensures Needed(files[i := files[i].(offset := off)], i + 1)
  {
  }

  lemma NeededPad(files: seq<File>, i: nat, pad: File, off: nat)
    requires Needed(files, i) && i < |files| && pad.name.Padding? && forall j | i <= j < |files| :: files[j].size > pad.size
    ensures Needed(files[..i] + [pad, files[i].(offset := off)] + files[i + 1..], i + 2)
  {
    var files' := files[..i] + [pad, files[i].(offset := off)] + files[i + 1..];
    forall p, j | 0 <= p < i + 2 && p < j < |files'| && files'[p].name.Padding? && files'[j].name.Given?
      ensures files'[j].size > files'[p].size
    {
      if p < i && j > i { assert files'[j].size == files[j - 1].size; }
    }
  }

  /** The file at `index` taken out and put back at dst. */
  function Moved(files: seq<File>, index: nat, dst: nat): (r: seq<File>)
    requires dst <= index < |files|
    ensures |r| == |files|
  {
    var rest := files[..index] + files[index + 1..];
    rest[..dst] + [files[index]] + rest[dst..]
  }

  lemma {:induction false} SumSplits(a: seq<File>, b: seq<File>)
    ensures Sum(a + b) == Sum(a) + Sum(b)
    ensures Bares(a + b) == Bares(a) + Bares(b)
  {
    if b == [] {
      assert a + b == a;
    } else {
      assert (a + b)[..|a + b| - 1] == a + b[..|b| - 1];
      SumSplits(a, b[..|b| - 1]);
    }
  }

  lemma SumInsert(a: seq<File>, f: File, b: seq<File>)
    ensures Sum(a + [f] + b) == Sum(a) + f.size + Sum(b) && Bares(a + [f] + b) == Bares(a) + multiset{Bare(f)} + Bares(b)
  {
    SumSplits(a + [f], b);
    SumSplits(a, [f]);
    assert Sum([f]) == f.size && Bares([f]) == multiset{Bare(f)} by { assert [f][..0] == []; }
  }

  lemma MovedParts(files: seq<File>, index: nat, dst: nat)
    requires dst <= index < |files|
    ensures Moved(files, index, dst) == files[..dst] + [files[index]] + (files[dst..index] + files[index + 1..])
    ensures files == files[..dst] + files[dst..index] + [files[index]] + files[index + 1..]
  {
  }

  lemma Exchange(a: multiset<File>, b: multiset<File>, f: multiset<File>, c: multiset<File>)
    ensures a + b + f + c == a + f + (b + c)
  {
  }

  /** Moving a file keeps the files as a whole. */
  lemma MovedSums(files: seq<File>, index: nat, dst: nat)
    requires dst <= index < |files|
    ensures Sum(Moved(files, index, dst)) == Sum(files) && Bares(Moved(files, index, dst)) == Bares(files)
  {
    var a, b, c := files[..dst], files[dst..index], files[index + 1..];
    MovedParts(files, index, dst);
    hide *;
    SumInsert(a + b, files[index], c);
    SumInsert(a, files[index], b + c);
    SumSplits(a, b);
    SumSplits(b, c);
    Exchange(Bares(a), Bares(b), multiset{Bare(files[index])}, Bares(c));
  }

  /** And the files before its new place; what comes after was there before. */
  lemma MovedAt(files: seq<File>, index: nat, dst: nat)
    requires dst <= index < |files|
    ensures Moved(files, index, dst)[..dst] == files[..dst] && Moved(files, index, dst)[dst] == files[index]
    ensures forall j | 0 <= j < |files| ::
              Moved(files, index, dst)[j] == files[if j < dst || j > index then j else if j == dst then index else j - 1]
  {
  }

  /** The first i files are laid out up to off. */
  ghost predicate Ordered(files: seq<File>, i: nat, off: nat, limit: int) {
    i <= |files| && off == Sum(files[..i]) && Laid(files, i) && Aligned(files, i, limit) && LargestFirst(files, i, limit)
  }

  /** There are the files as given and the pads added. */
  ghost predicate Totals(files: seq<File>, given: seq<File>, pads: seq<File>) {
    Bares(files) == Bares(given) + Bares(pads) && Sum(files) == Sum(given) + Sum(pads) && PadsOk(pads)
  }

  /** The state of the layout after the first i files were placed. */
  ghost predicate Placed(files: seq<File>, i: nat, off: nat, limit: int, given: seq<File>, pads: seq<File>) {
    && Ordered(files, i, off, limit) && Totals(files, given, pads)
    && |pads| <= CountLarge(files[..i], limit) && (limit < 0 ==> pads == [])
  }

  /** Moving a file of the unplaced part forward. */
  lemma PlacedMove(files: seq<File>, i: nat, off: nat, limit: int, given: seq<File>, pads: seq<File>, index: nat)
    requires Placed(files, i, off, limit, given, pads) && i <= index < |files|
    ensures Placed(Moved(files, index, i), i, off, limit, given, pads)
  {
    var files' := Moved(files, index, i);
    MovedSums(files, index, i);
    MovedAt(files, index, i);
    SamePrefix(files, files', i);
    hide Moved, Sum, Bares, CountLarge;
  }

  /** The same first files have the same sums before them. */
  lemma SamePrefix(files: seq<File>, files': seq<File>, i: nat)
    requires i <= |files| && i <= |files'| && files'[..i] == files[..i]
    ensures forall k | 0 <= k < i :: files'[k] == files[k] && files'[..k] == files[..k]
  {
    forall k | 0 <= k < i
      ensures files'[k] == files[k] && files'[..k] == files[..k]
    {
      assert files'[k] == files'[..i][k] && files[k] == files[..i][k];
      assert files'[..k] == files'[..i][..k] && files[..k] == files[..i][..k];
    }
  }

  lemma SumNext(files: seq<File>, i: nat)
    requires i < |files|
    ensures Sum(files[..i + 1]) == Sum(files[..i]) + files[i].size
  {
    assert files[..i + 1][..i] == files[..i];
  }

  lemma OrderedNext(files: seq<File>, i: nat, off: nat, limit: int, files': seq<File>)
    requires Ordered(files, i, off, limit) && i < |files| && |files'| >= |files|
    requires files'[..i] == files[..i] && files'[i].offset == off
    requires limit >= 0 && Large(files'[i], limit) ==> off % ALIGNMENT == 0
    requires limit < 0 ==> |files'| == |files| && forall j | i < j < |files| :: files'[j] == files[j]
    requires limit < 0 ==> files'[i].size == files[i].size
    requires limit < 0 && off % ALIGNMENT == 0 ==> forall j | i < j < |files| :: files[j].size <= files[i].size
    ensures Ordered(files', i + 1, off + files'[i].size, limit)
  {
    SumNext(files', i);
    SamePrefix(files, files', i);
    hide Sum, Large;
    LargestNext(files, i, limit, files');
    hide LargestFirst;
  }

  lemma LargestNext(files: seq<File>, i: nat, limit: int, files': seq<File>)
    requires i < |files| && LargestFirst(files, i, limit) && |files'| >= |files|
    requires forall k | 0 <= k < i :: files'[k] == files[k]
    requires limit < 0 ==> |files'| == |files| && forall j | i < j < |files| :: files'[j] == files[j]
    requires limit < 0 ==> files'[i].size == files[i].size
    requires limit < 0 && files'[i].offset % ALIGNMENT == 0 ==> forall j | i < j < |files| :: files[j].size <= files[i].size
    ensures LargestFirst(files', i + 1, limit)
  {
  }

  lemma CountNext(files: seq<File>, i: nat, limit: int)
    requires i < |files|
    ensures CountLarge(files[..i + 1], limit) == CountLarge(files[..i], limit) + if Large(files[i], limit) then 1 else 0
  {
    assert files[..i + 1][..i] == files[..i];
  }

  /** Only the offset of a file changes. */
  lemma TotalsSame(files: seq<File>, i: nat, off: nat)
    requires i < |files|
    ensures var files' := files[i := files[i].(offset := off)]; Sum(files') == Sum(files) && Bares(files') == Bares(files)
  {
    var f := files[i].(offset := off);
    assert files == files[..i] + [files[i]] + files[i + 1..];
    assert files[i := f] == files[..i] + [f] + files[i + 1..];
    hide Sum, Bares;
    SumInsert(files[..i], files[i], files[i + 1..]);
    SumInsert(files[..i], f, files[i + 1..]);
  }

  lemma PlacedParts(files: seq<File>, i: nat, off: nat, limit: int, given: seq<File>, pads: seq<File>)
    ensures Placed(files, i, off, limit, given, pads) <==>
              && Ordered(files, i, off, limit) && Totals(files, given, pads)
              && |pads| <= CountLarge(files[..i], limit) && (limit < 0 ==> pads == [])
  {
    hide Sum, Bares, CountLarge, Laid, Aligned, LargestFirst, PadsOk;
  }

  /** What a new offset of file i leaves alone. */
  lemma OffsetOnly(files: seq<File>, i: nat, off: nat, limit: int, given: seq<File>, pads: seq<File>)
    requires i < |files| && Totals(files, given, pads)
    ensures var files' := files[i := files[i].(offset := off)];
      && Totals(files', given, pads) && files'[..i] == files[..i] && Large(files'[i], limit) == Large(files[i], limit)
  {
    TotalsSame(files, i, off);
    hide Sum, Bares, PadsOk;
  }

  /** Placing file i at its offset. It is large only if the offset is aligned. */
  lemma PlacedNext(files: seq<File>, i: nat, off: nat, limit: int, given: seq<File>, pads: seq<File>)
    requires Placed(files, i, off, limit, given, pads) && i < |files|
    requires limit >= 0 && Large(files[i], limit) ==> off % ALIGNMENT == 0
    requires limit < 0 && off % ALIGNMENT == 0 ==> forall j | i < j < |files| :: files[j].size <= files[i].size
    ensures var files' := files[i := files[i].(offset := off)];
      Placed(files', i + 1, off + files[i].size, limit, given, pads)
  {
    hide *;
    var files' := files[i := files[i].(offset := off)];
    PlacedParts(files, i, off, limit, given, pads);
    OffsetOnly(files, i, off, limit, given, pads);
    OrderedNext(files, i, off, limit, files');
    CountNext(files', i, limit);
    PlacedParts(files', i + 1, off + files[i].size, limit, given, pads);
  }

  /** A pad in front of a large file at an unaligned offset. */
  lemma PlacedPad(files: seq<File>, i: nat, off: nat, limit: int, given: seq<File>, pads: seq<File>)
    requires Placed(files, i, off, limit, given, pads) && i < |files| && limit >= 0 && off % ALIGNMENT != 0
    requires Large(files[i], limit)
    ensures var pad := File(Padding(|pads|), ALIGNMENT - off % ALIGNMENT, off, true);
      var f := files[i].(offset := off + pad.size);
      Placed(files[..i] + [pad, f] + files[i + 1..], i + 2, off + pad.size + f.size, limit, given, pads + [pad])
  {
    hide *;
    PadAligns(off);
    var pad := File(Padding(|pads|), ALIGNMENT - off % ALIGNMENT, off, true);
    var f := files[i].(offset := off + pad.size);
    var files' := files[..i] + [pad, f] + files[i + 1..];
    PlacedParts(files, i, off, limit, given, pads);
    PadPlaces(files, i, pad, f);
    PadIsNot(files[i], pad, f, limit);
    PadTotals(files, i, pad, f, given, pads);
    OrderedNext(files, i, off, limit, files');
    OrderedNext(files', i + 1, off + pad.size, limit, files');
    CountNext(files', i, limit);
    CountNext(files', i + 1, limit);
    PlacedParts(files', i + 2, off + pad.size + f.size, limit, given, pads + [pad]);
  }

  lemma ClampedIs(limit: int)
    ensures ALIGNMENT > 0 && Clamped(limit) == if 0 <= limit < ALIGNMENT then ALIGNMENT else limit
  {
  }

  lemma LargeIs(f: File, limit: int)
    ensures Large(f, limit) <==> !f.padFile && f.size > limit
  {
  }

  lemma PadIsNot(file: File, pad: File, f: File, limit: int)
    requires pad.padFile && f == file.(offset := f.offset)
    ensures !Large(pad, limit) && Large(f, limit) == Large(file, limit)
  {
  }

  lemma PadAligns(off: nat)
    requires off % ALIGNMENT != 0
    ensures ALIGNMENT > 0 && (off + (ALIGNMENT - off % ALIGNMENT)) % ALIGNMENT == 0 && 0 < ALIGNMENT - off % ALIGNMENT < ALIGNMENT
  {
  }

  lemma PadPlaces(files: seq<File>, i: nat, pad: File, f: File)
    requires i < |files|
    ensures var files' := files[..i] + [pad, f] + files[i + 1..];
      |files'| == |files| + 1 && files'[..i] == files[..i] && files'[i] == pad && files'[i + 1] == f
  {
  }

  lemma PadTotals(files: seq<File>, i: nat, pad: File, f: File, given: seq<File>, pads: seq<File>)
    requires i < |files| && f == files[i].(offset := f.offset) && Totals(files, given, pads)
    requires pad.padFile && pad.name == Padding(|pads|) && 0 < pad.size < ALIGNMENT
    ensures Totals(files[..i] + [pad, f] + files[i + 1..], given, pads + [pad])
  {
    PadSums(files, i, pad, f);
    SumLast(pads, pad);
    hide Sum, Bares;
  }

  lemma SumLast(files: seq<File>, f: File)
    ensures Sum(files + [f]) == Sum(files) + f.size && Bares(files + [f]) == Bares(files) + multiset{Bare(f)}
  {
    assert (files + [f])[..|files|] == files;
  }

  lemma PadSums(files: seq<File>, i: nat, pad: File, f: File)
    requires i < |files| && f == files[i].(offset := f.offset)
    ensures var files' := files[..i] + [pad, f] + files[i + 1..];
      Sum(files') == Sum(files) + pad.size && Bares(files') == Bares(files) + multiset{Bare(pad)}
  {
    var a, b := files[..i], files[i + 1..];
    assert files == a + [files[i]] + b;
    assert files[..i] + [pad, f] + files[i + 1..] == a + [pad] + [f] + b;
    hide Sum, Bares;
    SumInsert(a, files[i], b);
    SumInsert(a + [pad], f, b);
    SumLast(a, pad);
  }

  /** A given file is waiting to be placed. Places are told by the numbers of their files in the order given, or are
      negative for the pads that were added. */
  ghost predicate Waits(given: seq<File>, places: seq<int>, j: nat, g: int) {
    j <= |places| && 0 <= g < |given| && g !in places[..j]
  }

  /** It is the next one, the first of all that wait. */
  ghost predicate NextUp(given: seq<File>, places: seq<int>, j: nat, g: int) {
    Waits(given, places, j, g) && forall h | Waits(given, places, j, h) :: g <= h
  }

  /** It is a largest of those that wait, and the first one of that size. */
  ghost predicate Largest(given: seq<File>, places: seq<int>, j: nat, g: int) {
    && Waits(given, places, j, g)
    && forall h | Waits(given, places, j, h) :: given[h].size < given[g].size || (given[h].size == given[g].size && g <= h)
  }

  /** It is a largest of those that wait and fit the room, and the first one of that size. */
  ghost predicate LargestFit(given: seq<File>, places: seq<int>, j: nat, g: int, room: int) {
    && Waits(given, places, j, g) && given[g].size <= room
    && forall h | Waits(given, places, j, h) && given[h].size <= room ::
         given[h].size < given[g].size || (given[h].size == given[g].size && g <= h)
  }

  /** What comes to place j. At an aligned offset it is the largest file that waits. At any other the next one has its
      turn; if that is large, the largest file that fits in what is missing to the alignment comes first, or a pad if none
      fits, and then the large one. */
  ghost predicate Chosen(given: seq<File>, files: seq<File>, places: seq<int>, j: nat, limit: int)
    requires j < |places| <= |files|
  {
    var room := ALIGNMENT - files[j].offset % ALIGNMENT;
    if places[j] < 0 then
      && files[j].offset % ALIGNMENT != 0 && files[j].padFile && files[j].size == room && limit >= 0
      && j + 1 < |places| && NextUp(given, places, j, places[j + 1]) && Large(given[places[j + 1]], limit)
      && forall g | Waits(given, places, j, g) :: given[g].size > room
    else if j > 0 && places[j - 1] < 0 then true
    else if files[j].offset % ALIGNMENT == 0 then Largest(given, places, j, places[j])
    else
      exists h :: NextUp(given, places, j, h) &&
        if limit >= 0 && Large(given[h], limit) then LargestFit(given, places, j, places[j], room) else places[j] == h
  }

  /** The first places are taken by given files, each at most once, and pads, as the rules above choose them. */
  ghost predicate Arranged(given: seq<File>, files: seq<File>, places: seq<int>, limit: int) {
    && |places| <= |files|
    && (forall j | 0 <= j < |places| && places[j] >= 0 :: places[j] < |given| && Bare(files[j]) == Bare(given[places[j]]))
    && (forall j, k | 0 <= j < k < |places| && places[j] >= 0 :: places[j] != places[k])
    && (places != [] ==> places[|places| - 1] >= 0)
    && forall j: nat | j < |places| :: Chosen(given, files, places, j, limit)
  }

  /** The files without a place yet are those that wait, in the order given. */
  ghost predicate Queue(given: seq<File>, files: seq<File>, places: seq<int>, rest: seq<int>) {
    && |files| == |places| + |rest|
    && (forall m | 0 <= m < |rest| :: Waits(given, places, |places|, rest[m]))
    && (forall j | |places| <= j < |files| :: files[j] == given[rest[j - |places|]])
    && (forall m, n | 0 <= m < n < |rest| :: rest[m] < rest[n])
    && forall g | Waits(given, places, |places|, g) :: g in rest
  }

  lemma QueueAll(files: seq<File>, limit: int)
    ensures var rest := seq(|files|, m => m); Queue(files, files, [], rest) && Arranged(files, files, [], limit)
  {
    var rest := seq(|files|, m => m);
    forall g | Waits(files, [], 0, g)
      ensures g in rest
    {
      assert rest[g] == g;
    }
  }

  lemma WaitsSame(given: seq<File>, places: seq<int>, more: seq<int>, j: nat)
    requires j <= |places|
    ensures forall g :: Waits(given, places + more, j, g) <==> Waits(given, places, j, g)
  {
    assert (places + more)[..j] == places[..j];
  }

  lemma ChosenStays(given: seq<File>, files: seq<File>, files': seq<File>, places: seq<int>, more: seq<int>, j: nat, limit: int)
    requires j < |places| <= |files| && |places| + |more| <= |files'| && files'[..|places|] == files[..|places|]
    requires places[|places| - 1] >= 0 && Chosen(given, files, places, j, limit)
    ensures Chosen(given, files', places + more, j, limit)
  {
    var places' := places + more;
    WaitsSame(given, places, more, j);
    assert files'[j] == files[j] by { assert files'[..|places|][j] == files[..|places|][j]; }
    hide Waits, Large;
    if places[j] >= 0 && !(j > 0 && places[j - 1] < 0) && files[j].offset % ALIGNMENT != 0 {
      var h :| NextUp(given, places, j, h)
               && if limit >= 0 && Large(given[h], limit)
                  then LargestFit(given, places, j, places[j], ALIGNMENT - files[j].offset % ALIGNMENT) else places[j] == h;
      assert NextUp(given, places', j, h);
    }
  }

  lemma ArrangedMore(given: seq<File>, files: seq<File>, files': seq<File>, places: seq<int>, more: seq<int>, limit: int)
    requires Arranged(given, files, places, limit) && 0 < |more| && |places| + |more| <= |files'|
    requires files'[..|places|] == files[..|places|] && more[|more| - 1] >= 0
    requires forall m | 0 <= m < |more| && more[m] >= 0 ::
               && Waits(given, places, |places|, more[m]) && Bare(files'[|places| + m]) == Bare(given[more[m]])
               && forall n | m < n < |more| :: more[m] != more[n]
    requires forall j: nat | |places| <= j < |places + more| :: Chosen(given, files', places + more, j, limit)
    ensures Arranged(given, files', places + more, limit)
  {
    var places' := places + more;
    hide Chosen;
    forall j: nat | j < |places'|
      ensures Chosen(given, files', places', j, limit)
      ensures places'[j] >= 0 ==> places'[j] < |given| && Bare(files'[j]) == Bare(given[places'[j]])
    {
      if j < |places| {
        ChosenStays(given, files, files', places, more, j, limit);
        assert files'[j] == files'[..|places|][j] == files[..|places|][j] == files[j];
      } else {
        var m: nat := j - |places|;
        assert places'[j] == more[m] && files'[j] == files'[|places| + m];
      }
    }
    forall j, k | 0 <= j < k < |places'| && places'[j] >= 0
      ensures places'[j] != places'[k]
    {
      if j < |places| <= k {
        assert places'[k] == more[k - |places|] && places[j] in places[..|places|];
      } else if j >= |places| {
        assert places'[j] == more[j - |places|] && places'[k] == more[k - |places|];
      }
    }
  }

  function Dropped(rest: seq<int>, b: nat): (r: seq<int>)
    requires b < |rest|
    ensures |r| == |rest| - 1 && forall m | 0 <= m < |r| :: r[m] == rest[if m < b then m else m + 1]
  {
    rest[..b] + rest[b + 1..]
  }

  /** The file at `index` goes to the next place. */
  lemma QueueTakes(given: seq<File>, files: seq<File>, places: seq<int>, rest: seq<int>, index: nat, off: nat)
    requires Queue(given, files, places, rest) && |places| <= index < |files|
    ensures var i := |places|; var b := index - i; var files1 := Moved(files, index, i);
      && Waits(given, places, i, rest[b]) && files1[i] == files[index] == given[rest[b]]
      && Queue(given, files1[i := files1[i].(offset := off)], places + [rest[b]], Dropped(rest, b))
  {
    hide *;
    var i, b := |places|, index - |places|;
    QueueParts(given, files, places, rest);
    MovedRest(files, index, i, off);
    var files1 := Moved(files, index, i);
    QueueDrops(given, files, files1[i := files1[i].(offset := off)], places, rest, b);
  }

  /** What is left when the file at `index` goes to place i. */
  lemma MovedRest(files: seq<File>, index: nat, i: nat, off: nat)
    requires i <= index < |files|
    ensures var files1 := Moved(files, index, i); var files2 := files1[i := files1[i].(offset := off)];
      && |files2| == |files| && files1[i] == files[index]
      && forall j | i < j < |files| :: files2[j] == files[if j <= index then j - 1 else j]
  {
    MovedAt(files, index, i);
    hide Moved;
  }

  lemma QueueParts(given: seq<File>, files: seq<File>, places: seq<int>, rest: seq<int>)
    requires Queue(given, files, places, rest)
    ensures |files| == |places| + |rest|
    ensures forall m | 0 <= m < |rest| :: 0 <= rest[m] < |given| && Waits(given, places, |places|, rest[m])
    ensures forall j | |places| <= j < |files| :: files[j] == given[rest[j - |places|]]
  {
  }

  lemma QueueDrops(given: seq<File>, files: seq<File>, files': seq<File>, places: seq<int>, rest: seq<int>, b: nat)
    requires Queue(given, files, places, rest) && b < |rest| && |files'| == |files|
    requires forall j | |places| < j < |files| :: files'[j] == files[if j <= |places| + b then j - 1 else j]
    ensures Queue(given, files', places + [rest[b]], Dropped(rest, b))
  {
    WaitsNext(given, places, rest[b]);
    hide Waits, Dropped;
    var rest' := Dropped(rest, b);
    DroppedIs(rest, b);
    forall m | 0 <= m < |rest'|
      ensures Waits(given, places + [rest[b]], |places| + 1, rest'[m])
    {
      assert rest'[m] == rest[if m < b then m else m + 1];
    }
    forall g | Waits(given, places + [rest[b]], |places| + 1, g)
      ensures g in rest'
    {
      DroppedHas(rest, b, g);
    }
  }

  lemma DroppedHas(rest: seq<int>, b: nat, g: int)
    requires b < |rest| && g in rest && g != rest[b]
    ensures g in Dropped(rest, b)
  {
    var n :| 0 <= n < |rest| && rest[n] == g;
    assert Dropped(rest, b)[if n < b then n else n - 1] == g;
  }

  lemma DroppedIs(rest: seq<int>, b: nat)
    requires b < |rest|
    ensures |Dropped(rest, b)| == |rest| - 1
    ensures forall m | 0 <= m < |rest| - 1 :: Dropped(rest, b)[m] == rest[if m < b then m else m + 1]
  {
  }

  lemma WaitsNext(given: seq<File>, places: seq<int>, x: int)
    ensures forall g :: Waits(given, places + [x], |places| + 1, g) <==> Waits(given, places, |places|, g) && g != x
  {
    assert (places + [x])[..|places| + 1] == places + [x] && places[..|places|] == places;
    assert forall g :: g in places + [x] <==> g in places || g == x;
  }

  lemma Heads(given: seq<File>, files: seq<File>, places: seq<int>, rest: seq<int>)
    requires Queue(given, files, places, rest) && rest != []
    ensures NextUp(given, places, |places|, rest[0]) && files[|places|] == given[rest[0]]
  {
    forall h | Waits(given, places, |places|, h)
      ensures rest[0] <= h
    {
      var n :| 0 <= n < |rest| && rest[n] == h;
    }
  }

  /** The first of the largest that fit, by position or by number. */
  lemma FitsBest(given: seq<File>, files: seq<File>, places: seq<int>, rest: seq<int>, index: nat, room: int)
    requires Queue(given, files, places, rest) && |places| <= index < |files| && files[index].size <= room
    requires forall j | |places| <= j < |files| && files[j].size <= room ::
               files[j].size < files[index].size || (files[j].size == files[index].size && index <= j)
    ensures LargestFit(given, places, |places|, rest[index - |places|], room)
  {
    var i, g := |places|, rest[index - |places|];
    assert Waits(given, places, i, g);
    forall h | Waits(given, places, i, h) && given[h].size <= room
      ensures given[h].size < given[g].size || (given[h].size == given[g].size && g <= h)
    {
      var n :| 0 <= n < |rest| && rest[n] == h;
      assert files[i + n] == given[h];
    }
  }

  /** So is the first of the largest of all, which fits whatever holds all of them. */
  lemma LargestIs(given: seq<File>, files: seq<File>, places: seq<int>, rest: seq<int>, index: nat)
    requires Queue(given, files, places, rest) && |places| <= index < |files|
    requires forall j | |places| <= j < |files| ::
               files[j].size < files[index].size || (files[j].size == files[index].size && index <= j)
    ensures Largest(given, places, |places|, rest[index - |places|])
  {
    FitsBest(given, files, places, rest, index, files[index].size);
    var i, g := |places|, rest[index - |places|];
    forall h | Waits(given, places, i, h)
      ensures given[h].size <= files[index].size
    {
      var n :| 0 <= n < |rest| && rest[n] == h;
      assert files[i + n] == given[h];
    }
  }

  /** The layout after the first i files, by the order given. */
  ghost predicate InLine(given: seq<File>, files: seq<File>, i: nat, places: seq<int>, rest: seq<int>, limit: int) {
    |places| == i && Arranged(given, files, places, limit) && Queue(given, files, places, rest)
  }

  /** The file at `index` is the one for place i at this offset. */
  ghost predicate Turn(files: seq<File>, i: nat, off: nat, limit: int, index: nat) {
    && i <= index < |files|
    && if off % ALIGNMENT == 0 then
         forall j | i <= j < |files| :: files[j].size < files[index].size || (files[j].size == files[index].size && index <= j)
       else if limit >= 0 && Large(files[i], limit) then
         var room := ALIGNMENT - off % ALIGNMENT;
         && files[index].size <= room
         && forall j | i <= j < |files| && files[j].size <= room ::
              files[j].size < files[index].size || (files[j].size == files[index].size && index <= j)
       else index == i
  }

  lemma InLineFile(given: seq<File>, files: seq<File>, i: nat, places: seq<int>, rest: seq<int>, limit: int, index: nat, off: nat)
    requires InLine(given, files, i, places, rest, limit) && Turn(files, i, off, limit, index)
    ensures index - i < |rest|
    ensures var files1 := Moved(files, index, i);
      InLine(given, files1[i := files1[i].(offset := off)], i + 1, places + [rest[index - i]], Dropped(rest, index - i), limit)
  {
    var b, files1 := index - i, Moved(files, index, i);
    var files2 := files1[i := files1[i].(offset := off)];
    QueueParts(given, files, places, rest);
    QueueTakes(given, files, places, rest, index, off);
    MovedAt(files, index, i);
    Heads(given, files, places, rest);
    if off % ALIGNMENT == 0 {
      LargestIs(given, files, places, rest, index);
    } else if limit >= 0 && Large(files[i], limit) {
      FitsBest(given, files, places, rest, index, ALIGNMENT - off % ALIGNMENT);
    }
    hide Moved, Queue, Waits, Dropped, Large;
    ChosenNow(given, files2, places, rest, b, limit, off);
    ArrangedMore(given, files, files2, places, [rest[b]], limit);
  }

  /** The choice at the next place is one of those the rules allow. */
  lemma ChosenNow(given: seq<File>, files: seq<File>, places: seq<int>, rest: seq<int>, b: nat, limit: int, off: nat)
    requires b < |rest| && |places| < |files| && files[|places|].offset == off && rest[b] >= 0
    requires if off % ALIGNMENT == 0 then Largest(given, places, |places|, rest[b])
             else
               && NextUp(given, places, |places|, rest[0])
               && if limit >= 0 && Large(given[rest[0]], limit)
                  then LargestFit(given, places, |places|, rest[b], ALIGNMENT - off % ALIGNMENT) else b == 0
    ensures Chosen(given, files, places + [rest[b]], |places|, limit)
  {
    WaitsSame(given, places, [rest[b]], |places|);
    hide Waits, Large;
    if off % ALIGNMENT != 0 {
      assert NextUp(given, places + [rest[b]], |places|, rest[0]);
    }
  }

  /** A pad and the large file behind it. */
  lemma InLinePad(given: seq<File>, files: seq<File>, i: nat, places: seq<int>, rest: seq<int>, limit: int, pad: File, off: nat)
    requires InLine(given, files, i, places, rest, limit) && i < |files| && limit >= 0 && Large(files[i], limit)
    requires off % ALIGNMENT != 0 && pad.size == ALIGNMENT - off % ALIGNMENT && pad.offset == off && pad.padFile
    requires forall j | i <= j < |files| :: files[j].size > pad.size
    ensures |rest| > 0
    ensures InLine(given, files[..i] + [pad, files[i].(offset := off + pad.size)] + files[i + 1..], i + 2, places + [-1, rest[0]],
                   Dropped(rest, 0), limit)
  {
    hide Waits, Queue, Dropped, Large, Arranged, Chosen, Bare, NextUp;
    var f := files[i].(offset := off + pad.size);
    var files' := files[..i] + [pad, f] + files[i + 1..];
    QueueParts(given, files, places, rest);
    Heads(given, files, places, rest);
    PadPlaces(files, i, pad, f);
    PadRest(files, i, pad, f);
    QueuePads(given, files, files', places, rest);
    ChosenPad(given, files, files', places, rest, limit);
    BareIs(files[i], off + pad.size);
    ArrangedMore(given, files, files', places, [-1, rest[0]], limit);
  }

  lemma BareIs(f: File, off: nat)
    ensures Bare(f.(offset := off)) == Bare(f)
  {
  }

  lemma PadRest(files: seq<File>, i: nat, pad: File, f: File)
    requires i < |files|
    ensures var files' := files[..i] + [pad, f] + files[i + 1..]; forall j | i + 1 < j < |files'| :: files'[j] == files[j - 1]
  {
  }

  /** A pad is in its place, and the file behind it is. */
  lemma ChosenPad(given: seq<File>, files: seq<File>, files': seq<File>, places: seq<int>, rest: seq<int>, limit: int)
    requires Queue(given, files, places, rest) && rest != [] && |files'| == |files| + 1 && limit >= 0
    requires NextUp(given, places, |places|, rest[0]) && Large(given[rest[0]], limit)
    requires var pad := files'[|places|];
      && pad.offset % ALIGNMENT != 0 && pad.size == ALIGNMENT - pad.offset % ALIGNMENT && pad.padFile
      && forall j | |places| <= j < |files| :: files[j].size > pad.size
    ensures forall j: nat | |places| <= j < |places| + 2 :: Chosen(given, files', places + [-1, rest[0]], j, limit)
  {
    var i, pad := |places|, files'[|places|];
    WaitsSame(given, places, [-1, rest[0]], i);
    forall g | Waits(given, places, i, g)
      ensures given[g].size > pad.size
    {
      var n :| 0 <= n < |rest| && rest[n] == g;
      assert files[i + n] == given[g];
    }
    hide Waits, Large;
  }

  lemma QueuePads(given: seq<File>, files: seq<File>, files': seq<File>, places: seq<int>, rest: seq<int>)
    requires Queue(given, files, places, rest) && rest != [] && |files'| == |files| + 1
    requires forall j | |places| + 1 < j < |files'| :: files'[j] == files[j - 1]
    ensures Queue(given, files', places + [-1, rest[0]], Dropped(rest, 0))
  {
    WaitsNext(given, places, -1);
    WaitsNext(given, places + [-1], rest[0]);
    assert places + [-1] + [rest[0]] == places + [-1, rest[0]];
    DroppedIs(rest, 0);
    hide Waits, Dropped;
    forall g | Waits(given, places + [-1, rest[0]], |places| + 2, g)
      ensures g in Dropped(rest, 0)
    {
      DroppedHas(rest, 0, g);
    }
  }

  lemma TurnIs(files: seq<File>, i: nat, off: nat, limit: int, index: nat)
    requires i <= index < |files|
    ensures Moved(files, i, i) == files
    ensures Turn(files, i, off, limit, index) <==>
              if off % ALIGNMENT == 0 then
                (forall j | i <= j < |files| :: files[j].size <= files[index].size)
                && (forall j | i <= j < index :: files[j].size < files[index].size)
              else if limit >= 0 && Large(files[i], limit) then
                var room := ALIGNMENT - off % ALIGNMENT;
                && files[index].size <= room
                && (forall j | i <= j < |files| && files[j].size <= room :: files[j].size <= files[index].size)
                && (forall j | i <= j < index && files[j].size <= room :: files[j].size < files[index].size)
              else index == i
  {
  }

  lemma InLineNone(files: seq<File>, limit: int)
    ensures InLine(files, files, 0, [], seq(|files|, m => m), limit)
  {
    QueueAll(files, limit);
  }

  /** With nothing left every given file has its place. */
  lemma InLineAll(given: seq<File>, files: seq<File>, places: seq<int>, rest: seq<int>, limit: int)
    requires InLine(given, files, |files|, places, rest, limit)
    ensures |places| == |files| && Arranged(given, files, places, limit) && forall g | 0 <= g < |given| :: g in places
  {
    assert places[..|places|] == places;
    forall g | 0 <= g < |given|
      ensures g in places
    {
      assert rest == [] && !Waits(given, places, |places|, g);
    }
  }

  /** A file that stands at an aligned offset, and not behind an added pad, is at least as large as every given file after
      it; and one that stands in front of a large file at another offset without one, as every file after it that fits
      what is missing to the alignment. */
  lemma ArrangedSizes(given: seq<File>, files: seq<File>, places: seq<int>, limit: int, j: nat, k: nat)
    requires Arranged(given, files, places, limit) && j < k < |places| && places[j] >= 0 && places[k] >= 0
    requires j > 0 ==> places[j - 1] >= 0
    ensures files[j].offset % ALIGNMENT == 0 ==> files[k].size <= files[j].size
    ensures files[j].offset % ALIGNMENT != 0 && limit >= 0 && Large(files[k], limit) && NextUp(given, places, j, places[k]) ==>
              var room := ALIGNMENT - files[j].offset % ALIGNMENT;
              files[j].size <= room && forall m | j < m < |places| && places[m] >= 0 && files[m].size <= room :: files[m].size <= files[j].size
  {
    assert Chosen(given, files, places, j, limit);
    assert forall m | j <= m < |places| && places[m] >= 0 :: Waits(given, places, j, places[m]);
  }

  /** The layout after the first i files, in every respect. */
  ghost predicate Layout(given: seq<File>, files: seq<File>, i: nat, off: nat, limit: int, pads: seq<File>, places: seq<int>,
                         rest: seq<int>) {
    && Placed(files, i, off, limit, given, pads) && InLine(given, files, i, places, rest, limit)
    && (AllGiven(given) ==> Needed(files, i))
  }

  lemma LayoutNone(files: seq<File>, limit: int)
    ensures Layout(files, files, 0, 0, limit, [], [], seq(|files|, m => m))
  {
    PlacedNone(files, limit);
    NeededNone(files);
    InLineNone(files, limit);
  }

  /** The file at `index` moved to place i and given its offset. */
  function Put(files: seq<File>, index: nat, i: nat, off: nat): (r: seq<File>)
    requires i <= index < |files|
    ensures |r| == |files|
  {
    var files1 := Moved(files, index, i);
    files1[i := files1[i].(offset := off)]
  }

  lemma PutIs(files: seq<File>, index: nat, i: nat, off: nat)
    requires i <= index < |files|
    ensures var files1 := Moved(files, index, i); files1[i] == files[index] && files1[i := files1[i].(offset := off)] == Put(files, index, i, off)
  {
    MovedAt(files, index, i);
    hide Moved;
  }

  lemma PlacedTurn(given: seq<File>, files: seq<File>, i: nat, off: nat, limit: int, pads: seq<File>, index: nat)
    requires Placed(files, i, off, limit, given, pads) && (AllGiven(given) ==> Needed(files, i)) && Turn(files, i, off, limit, index)
    requires limit < 0 || limit >= ALIGNMENT
    ensures i <= index < |files|
    ensures Placed(Put(files, index, i, off), i + 1, off + files[index].size, limit, given, pads)
    ensures AllGiven(given) ==> Needed(Put(files, index, i, off), i + 1)
  {
    TurnFits(files, i, off, limit, index);
    hide *;
    var files1 := Moved(files, index, i);
    PlacedMove(files, i, off, limit, given, pads, index);
    PutIs(files, index, i, off);
    PlacedNext(files1, i, off, limit, given, pads);
    if AllGiven(given) {
      NeededMove(files, i, index);
      NeededNext(files1, i, off);
    }
  }

  /** The file whose turn it is was placed. */
  lemma LayoutFile(given: seq<File>, files: seq<File>, i: nat, off: nat, limit: int, pads: seq<File>, places: seq<int>,
                   rest: seq<int>, index: nat)
    requires Layout(given, files, i, off, limit, pads, places, rest) && Turn(files, i, off, limit, index)
    requires limit < 0 || limit >= ALIGNMENT
    ensures i <= index && index - i < |rest| && index < |files|
    ensures Layout(given, Put(files, index, i, off), i + 1, off + files[index].size, limit, pads, places + [rest[index - i]],
                   Dropped(rest, index - i))
  {
    hide *;
    LayoutParts(given, files, i, off, limit, pads, places, rest);
    PlacedTurn(given, files, i, off, limit, pads, index);
    InLineFile(given, files, i, places, rest, limit, index, off);
    PutIs(files, index, i, off);
    LayoutParts(given, Put(files, index, i, off), i + 1, off + files[index].size, limit, pads, places + [rest[index - i]],
                Dropped(rest, index - i));
  }

  lemma LayoutParts(given: seq<File>, files: seq<File>, i: nat, off: nat, limit: int, pads: seq<File>, places: seq<int>,
                    rest: seq<int>)
    ensures Layout(given, files, i, off, limit, pads, places, rest) <==>
              && Placed(files, i, off, limit, given, pads) && InLine(given, files, i, places, rest, limit)
              && (AllGiven(given) ==> Needed(files, i))
  {
  }

  /** A large file is placed at aligned offsets only, and without padding a largest file is. */
  lemma TurnFits(files: seq<File>, i: nat, off: nat, limit: int, index: nat)
    requires Turn(files, i, off, limit, index) && (limit < 0 || limit >= ALIGNMENT)
    ensures i <= index < |files| && Moved(files, index, i)[i] == files[index]
    ensures limit >= 0 && Large(files[index], limit) ==> off % ALIGNMENT == 0
    ensures limit < 0 && off % ALIGNMENT == 0 ==> forall j | i < j < |files| :: Moved(files, index, i)[j].size <= files[index].size
  {
    MovedAt(files, index, i);
    hide Moved;
  }

  /** A pad was placed, and the large file behind it. */
  lemma LayoutPad(given: seq<File>, files: seq<File>, i: nat, off: nat, limit: int, pads: seq<File>, places: seq<int>, rest: seq<int>,
                  pad: File)
    requires Layout(given, files, i, off, limit, pads, places, rest) && i < |files| && limit >= 0 && Large(files[i], limit)
    requires ALIGNMENT > 0 && off % ALIGNMENT != 0 && pad == File(Padding(|pads|), ALIGNMENT - off % ALIGNMENT, off, true)
    requires forall j | i <= j < |files| :: files[j].size > pad.size
    ensures |rest| > 0
    ensures var f := files[i].(offset := off + pad.size);
      Layout(given, files[..i] + [pad, f] + files[i + 1..], i + 2, off + pad.size + f.size, limit, pads + [pad], places + [-1, rest[0]],
             Dropped(rest, 0))
  {
    hide *;
    LayoutParts(given, files, i, off, limit, pads, places, rest);
    PlacedPad(files, i, off, limit, given, pads);
    InLinePad(given, files, i, places, rest, limit, pad, off);
    if AllGiven(given) { NeededPad(files, i, pad, off + pad.size); }
    var f := files[i].(offset := off + pad.size);
    LayoutParts(given, files[..i] + [pad, f] + files[i + 1..], i + 2, off + pad.size + f.size, limit, pads + [pad], places + [-1, rest[0]],
                Dropped(rest, 0));
  }

  lemma LayoutAll(given: seq<File>, files: seq<File>, off: nat, limit: int, pads: seq<File>, places: seq<int>, rest: seq<int>)
    requires Layout(given, files, |files|, off, limit, pads, places, rest)
    ensures Laid(files, |files|) && Aligned(files, |files|, limit) && LargestFirst(files, |files|, limit) && PadsOk(pads)
    ensures off == Sum(files) == Sum(given) + Sum(pads) && Bares(files) == Bares(given) + Bares(pads)
    ensures |pads| <= CountLarge(files, limit) && Sum(pads) <= (ALIGNMENT - 1) * CountLarge(files, limit)
    ensures limit < 0 ==> pads == []
    ensures AllGiven(given) ==> PadsNeeded(files, |files|)
    ensures |places| == |files| && Arranged(given, files, places, limit) && forall g | 0 <= g < |given| :: g in places
  {
    hide *;
    LayoutParts(given, files, |files|, off, limit, pads, places, rest);
    PlacedAll(files, |files|, off, limit, given, pads);
    if AllGiven(given) { NeededAll(files, |files|); }
    InLineAll(given, files, places, rest, limit);
  }

  class FileStorage {
    var files: seq<File>
    var totalSize: nat
    var pieceLength: nat
    var numPieces: nat
    /** Where the data of a file starts in it; 0 for the files without an entry. */
    var fileBase: seq<nat>

    /** The files are laid out end to end. */
    ghost predicate Valid()
      reads this
    {
      Laid(files, |files|) && totalSize == Sum(files)
    }

    constructor ()
      ensures Valid() && files == []
    {
      files, totalSize, pieceLength, numPieces, fileBase := [], 0, 0, 0, [];
    }

    /** A new file goes to the end. */
    method AddFile(name: Name, size: int, padFile: bool)
      requires Valid()
      modifies `files, `totalSize
      ensures Valid() && files == old(files) + [File(name, if size < 0 then 0 else size, old(totalSize), padFile)]
    {
      var length := if size < 0 then 0 else size;
      var f := File(name, length, totalSize, padFile);
      SumInsert(files, f, []);
      assert files + [f] + [] == files + [f];
      files := files + [f];
      totalSize := totalSize + length;
      LaidMore(old(files), f);
    }

    /** The first file that starts after an offset. */
    method UpperBound(offset: int) returns (k: nat)
      requires Valid()
      ensures k <= |files| && (forall j | 0 <= j < k :: files[j].offset <= offset)
      ensures forall j | k <= j < |files| :: files[j].offset > offset
    {
      hide Sum;
      LaidSorted(files);
      k := 0;
      var length: nat := |files|;
      while length > 0
        invariant k + length <= |files|
        invariant forall j | 0 <= j < k :: files[j].offset <= offset
        invariant forall j | k + length <= j < |files| :: files[j].offset > offset
      {
        var half := length / 2;
        if offset < files[k + half].offset {
          length := half;
        } else {
          k := k + half + 1;
          length := length - half - 1;
        }
      }
    }

    /** The last file that starts at or before an offset, which is the one that holds the byte there. */
    method FileAtOffset(offset: nat) returns (i: nat)
      requires Valid() && |files| > 0
      ensures i < |files| && files[i].offset <= offset && forall j | i < j < |files| :: files[j].offset > offset
      ensures offset < totalSize ==> offset < files[i].offset + files[i].size
    {
      assert files[0].offset == Sum(files[..0]) == 0;
      var k := UpperBound(offset);
      i := k - 1;
      if offset < totalSize {
        HeldBy(files, i, offset);
      }
    }

    /** The files and the places in them that hold a range of a piece. */
    method MapBlock(piece: nat, offset: nat, size: nat) returns (ret: seq<Slice>)
      requires Valid() && |files| > 0 && pieceLength > 0 && piece * pieceLength + offset + size <= totalSize
      ensures Covers(files, fileBase, ret, piece * pieceLength + offset, piece * pieceLength + offset + size)
      ensures exists n :: Ascending(ret, n)
    {
      hide Covers, Base, Sum, Laid;
      ret := [];
      var target := piece * pieceLength + offset;
      var i := FileAtOffset(target);
      var fileOffset: int := target - files[i].offset;
      var left: nat := size;
      CoversNone(files, fileBase, target);
      while left > 0
        invariant left <= size && Covers(files, fileBase, ret, target, target + size - left)
        invariant left > 0 ==> i < |files| && fileOffset == target + size - left - files[i].offset
        invariant left > 0 ==> 0 <= fileOffset <= files[i].size
        invariant Ascending(ret, i)
        decreases |files| - i
      {
        if fileOffset < files[i].size {
          var part := if files[i].size - fileOffset < left then files[i].size - fileOffset else left;
          ret := AddSlice(i, fileOffset, part, ret, target, target + size - left);
          left := left - part;
          fileOffset := fileOffset + part;
        }
        NextStarts(files, i);
        AscendingUp(ret, i);
        fileOffset := fileOffset - files[i].size;
        i := i + 1;
      }
    }

    /** One more slice of file i. */
    method AddSlice(i: nat, fileOffset: nat, size: nat, slices: seq<Slice>, ghost from: nat, ghost end: nat) returns (ret: seq<Slice>)
      requires i < |files| && size > 0 && fileOffset + size <= files[i].size
      requires Covers(files, fileBase, slices, from, end) && files[i].offset + fileOffset == end && Ascending(slices, i)
      ensures Covers(files, fileBase, ret, from, end + size) && Ascending(ret, i + 1)
    {
      hide Covers, Base;
      var f := Slice(i, fileOffset + Base(fileBase, i), size);
      CoversMore(files, fileBase, slices, from, end, f);
      ret := slices + [f];
    }

    /** The piece and the place in it of a range of a file. */
    method MapFile(index: nat, fileOffset: nat, size: nat) returns (piece: nat, start: nat, length: nat)
      requires index < |files| && pieceLength > 0
      ensures piece * pieceLength + start == files[index].offset + fileOffset && start < pieceLength && length == size
    {
      var offset := fileOffset + files[index].offset;
      piece := offset / pieceLength;
      start := offset % pieceLength;
      length := size;
      DivMod(offset, pieceLength);
    }

    /** Mapping a range of a file to a piece and back gives that range. */
    method MapFileAndBack(index: nat, fileOffset: nat, size: nat) returns (ret: seq<Slice>)
      requires Valid() && index < |files| && pieceLength > 0 && size > 0 && fileOffset + size <= files[index].size
      ensures ret == [Slice(index, fileOffset + Base(fileBase, index), size)]
    {
      hide Covers;
      var piece, start, length := MapFile(index, fileOffset, size);
      EndsBefore(files, index);
      ret := MapBlock(piece, start, length);
      OneSlice(files, fileBase, ret, index, fileOffset, size);
    }

    method PieceSize(index: nat) returns (r: int)
      requires index < numPieces
      ensures r == SizeOf(index, numPieces, pieceLength, totalSize)
    {
      if index == numPieces - 1 {
        var sizeExceptLast: int := numPieces - 1;
        sizeExceptLast := sizeExceptLast * pieceLength;
        r := totalSize - sizeExceptLast;
      } else {
        r := pieceLength;
      }
    }

    /** Takes a file out and puts it back in front of others. */
    method ReorderFile(index: nat, dst: nat)
      requires dst <= index < |files|
      modifies `files
      ensures files == Moved(old(files), index, dst)
    {
      var e := files[index];
      files := files[..index] + files[index + 1..];
      files := files[..dst] + [e] + files[dst..];
    }

    /** The first of the largest files from i on. */
    method LargestFrom(i: nat) returns (best: nat)
      requires i < |files|
      ensures i <= best < |files|
      ensures forall j | i <= j < |files| :: files[j].size <= files[best].size
      ensures forall j | i <= j < best :: files[j].size < files[best].size
    {
      best := i;
      for j := i + 1 to |files|
        invariant i <= best < j
        invariant forall k | i <= k < j :: files[k].size <= files[best].size
        invariant forall k | i <= k < best :: files[k].size < files[best].size
      {
        if files[best].size < files[j].size {
          best := j;
        }
      }
    }

    /** The first of the largest files after i that fit in padSize, or the end. */
    method BestFit(i: nat, padSize: nat) returns (best: nat)
      requires i < |files|
      ensures i < best <= |files| && (best < |files| ==> files[best].size <= padSize)
      ensures forall j | i < j < |files| && files[j].size <= padSize :: best < |files| && files[j].size <= files[best].size
      ensures best < |files| ==> forall j | i < j < best && files[j].size <= padSize :: files[j].size < files[best].size
    {
      var n := |files|;
      best := n;
      for j := i + 1 to n
        invariant i < best <= n && (best < n ==> best < j && files[best].size <= padSize)
        invariant forall k | i < k < j && files[k].size <= padSize :: best < n && files[k].size <= files[best].size
        invariant best < n ==> forall k | i < k < best && files[k].size <= padSize :: files[k].size < files[best].size
      {
        if files[j].size > padSize { continue; }
        if best == n || files[j].size > files[best].size {
          best := j;
        }
      }
    }

    /** Lays out the files: the largest one left goes to every aligned offset, and a large file at another offset is
        preceded by the largest smaller ones that fit, or else by a pad. */
    method Optimize(padFileLimit: int) returns (ghost pads: seq<File>, ghost places: seq<int>)
      modifies `files, `totalSize
      ensures Laid(files, |files|) && totalSize == Sum(files)
      ensures Bares(files) == Bares(old(files)) + Bares(pads)
      ensures Aligned(files, |files|, Clamped(padFileLimit)) && LargestFirst(files, |files|, Clamped(padFileLimit))
      ensures |places| == |files| && Arranged(old(files), files, places, Clamped(padFileLimit))
      ensures forall g | 0 <= g < |old(files)| :: g in places
      ensures PadsOk(pads) && (padFileLimit < 0 ==> pads == [])
      ensures |pads| <= CountLarge(files, Clamped(padFileLimit))
      ensures AllGiven(old(files)) ==> PadsNeeded(files, |files|)
      ensures totalSize == Sum(old(files)) + Sum(pads) <= Sum(old(files)) + (ALIGNMENT - 1) * CountLarge(files, Clamped(padFileLimit))
    {
      hide *;
      ClampedIs(padFileLimit);
      var limit := padFileLimit;
      if limit >= 0 && limit < ALIGNMENT {
        limit := ALIGNMENT;
      }
      var off: nat, paddingFile: nat, i: nat := 0, 0, 0;
      ghost var rest := seq(|files|, m => m);
      pads, places := [], [];
      LayoutNone(files, limit);
      while i < |files|
        invariant Layout(old(files), files, i, off, limit, pads, places, rest) && paddingFile == |pads| && i <= |files|
        decreases |files| - i
      {
        ghost var files0, chosen := files, i;
        LargeIs(files[i], limit);
        if off % ALIGNMENT == 0 {
          var best := LargestFrom(i);
          chosen := best;
          if best != i {
            ReorderFile(best, i);
          }
        } else if limit >= 0 && files[i].size > limit && !files[i].padFile {
          var padSize := ALIGNMENT - off % ALIGNMENT;
          var best := BestFit(i, padSize);
          if best != |files| {
            chosen := best;
            ReorderFile(best, i);
          } else {
            var pad := File(Padding(paddingFile), padSize, off, true);
            LayoutPad(old(files), files, i, off, limit, pads, places, rest, pad);
            var f := files[i].(offset := off + padSize);
            files := files[..i] + [pad, f] + files[i + 1..];
            off := off + padSize + f.size;
            paddingFile := paddingFile + 1;
            pads, places, rest := pads + [pad], places + [-1, rest[0]], Dropped(rest, 0);
            i := i + 2;
            continue;
          }
        }
        TurnIs(files0, i, off, limit, chosen);
        PutIs(files0, chosen, i, off);
        LayoutFile(old(files), files0, i, off, limit, pads, places, rest, chosen);
        places, rest := places + [rest[chosen - i]], Dropped(rest, chosen - i);
        files := files[i := files[i].(offset := off)];
        off := off + files[i].size;
        i := i + 1;
      }
      totalSize := off;
      LayoutAll(old(files), files, off, limit, pads, places, rest);
    }
  }

  lemma NeededNone(files: seq<File>)
    ensures AllGiven(files) ==> Needed(files, 0)
  {
  }

  lemma NeededAll(files: seq<File>, i: nat)
    requires Needed(files, i) && i == |files|
    ensures PadsNeeded(files, |files|)
  {
  }

  lemma PlacedNone(files: seq<File>, limit: int)
    ensures Placed(files, 0, 0, limit, files, [])
  {
  }

  lemma {:induction false} PadBytes(pads: seq<File>)
    requires PadsOk(pads)
    ensures Sum(pads) <= (ALIGNMENT - 1) * |pads|
  {
    if pads != [] {
      PadBytes(pads[..|pads| - 1]);
    }
  }

  lemma PlacedAll(files: seq<File>, i: nat, off: nat, limit: int, given: seq<File>, pads: seq<File>)
    requires Placed(files, i, off, limit, given, pads) && i == |files|
    ensures Laid(files, i) && Aligned(files, i, limit) && LargestFirst(files, i, limit) && PadsOk(pads)
    ensures off == Sum(files) == Sum(given) + Sum(pads) && Bares(files) == Bares(given) + Bares(pads)
    ensures |pads| <= CountLarge(files, limit) && Sum(pads) <= (ALIGNMENT - 1) * CountLarge(files, limit)
    ensures limit < 0 ==> pads == []
  {
    assert files[..i] == files;
    hide Sum, Bares, CountLarge, Laid, Aligned, LargestFirst, PadsOk;
    PadBytesAtMost(pads, CountLarge(files, limit));
  }

  lemma PadBytesAtMost(pads: seq<File>, n: nat)
    requires PadsOk(pads) && |pads| <= n
    ensures Sum(pads) <= (ALIGNMENT - 1) * n
  {
    hide PadsOk, Sum;
    PadBytes(pads);
  }

  /** A part of a file, by its place in the file on disk. */
  datatype Slice = Slice(index: nat, offset: nat, size: nat)

  function Base(fileBase: seq<nat>, index: nat): nat {
    if index < |fileBase| then fileBase[index] else 0
  }

  /** The slice is a part of its file that is not empty. */
  predicate Inside(files: seq<File>, fileBase: seq<nat>, s: Slice) {
    && s.index < |files| && s.size > 0 && Base(fileBase, s.index) <= s.offset
    && s.offset - Base(fileBase, s.index) + s.size <= files[s.index].size
  }

  /** Where the bytes of a slice are in the torrent. */
  function StartOf(files: seq<File>, fileBase: seq<nat>, s: Slice): nat
    requires Inside(files, fileBase, s)
  {
    files[s.index].offset + s.offset - Base(fileBase, s.index)
  }

  /** The slices, one after the other, are exactly the bytes from..end-1 of the torrent. */
  predicate Covers(files: seq<File>, fileBase: seq<nat>, slices: seq<Slice>, from: nat, end: nat) {
    if slices == [] then from == end
    else
      var s := slices[|slices| - 1];
      && Inside(files, fileBase, s) && StartOf(files, fileBase, s) + s.size == end
      && Covers(files, fileBase, slices[..|slices| - 1], from, StartOf(files, fileBase, s))
  }

  /** The bytes of the slices. */
  function Gathered<T>(data: seq<T>, files: seq<File>, fileBase: seq<nat>, slices: seq<Slice>): seq<T>
    requires forall s | s in slices :: Inside(files, fileBase, s) && StartOf(files, fileBase, s) + s.size <= |data|
  {
    if slices == [] then []
    else
      var s := slices[|slices| - 1];
      Gathered(data, files, fileBase, slices[..|slices| - 1])
      + data[StartOf(files, fileBase, s)..StartOf(files, fileBase, s) + s.size]
  }

  /** Slices that cover a range hold its bytes in order. */
  lemma {:induction false} CoversGathers<T>(data: seq<T>, files: seq<File>, fileBase: seq<nat>, slices: seq<Slice>, from: nat, end: nat)
    requires Covers(files, fileBase, slices, from, end) && end <= |data|
    ensures from <= end && forall s | s in slices :: Inside(files, fileBase, s) && StartOf(files, fileBase, s) + s.size <= |data|
    ensures Gathered(data, files, fileBase, slices) == data[from..end]
  {
    if slices != [] {
      var s := slices[|slices| - 1];
      CoversGathers(data, files, fileBase, slices[..|slices| - 1], from, StartOf(files, fileBase, s));
      assert slices == slices[..|slices| - 1] + [s];
    }
  }

  /** The slices are of ever later files, all before file n. */
  predicate Ascending(slices: seq<Slice>, n: nat) {
    && (forall k | 0 <= k < |slices| :: slices[k].index < n)
    && (forall j, k | 0 <= j < k < |slices| :: slices[j].index < slices[k].index)
  }

  lemma AscendingUp(slices: seq<Slice>, n: nat)
    requires Ascending(slices, n) || Ascending(slices, n + 1)
    ensures Ascending(slices, n + 1)
  {
  }

  lemma CoversNone(files: seq<File>, fileBase: seq<nat>, from: nat)
    ensures Covers(files, fileBase, [], from, from)
  {
  }

  lemma CoversMore(files: seq<File>, fileBase: seq<nat>, slices: seq<Slice>, from: nat, end: nat, s: Slice)
    requires Covers(files, fileBase, slices, from, end)
    requires Inside(files, fileBase, s) && StartOf(files, fileBase, s) == end
    ensures Covers(files, fileBase, slices + [s], from, end + s.size)
  {
    assert (slices + [s])[..|slices|] == slices;
  }

  lemma LaidMore(files: seq<File>, f: File)
    requires Laid(files, |files|) && f.offset == Sum(files)
    ensures Laid(files + [f], |files| + 1)
  {
    forall k | 0 <= k <= |files|
      ensures (files + [f])[k].offset == Sum((files + [f])[..k])
    {
      assert (files + [f])[..k] == files[..k];
      assert files[..|files|] == files;
    }
  }

  lemma {:induction false} SumGrows(files: seq<File>, j: nat, k: nat)
    requires j <= k <= |files|
    ensures Sum(files[..j]) <= Sum(files[..k])
  {
    if j < k {
      SumGrows(files, j, k - 1);
      assert files[..k][..k - 1] == files[..k - 1];
    }
  }

  lemma LaidSorted(files: seq<File>)
    requires Laid(files, |files|)
    ensures forall j, k | 0 <= j <= k < |files| :: files[j].offset <= files[k].offset
  {
    forall j, k | 0 <= j <= k < |files|
      ensures files[j].offset <= files[k].offset
    {
      SumGrows(files, j, k);
    }
  }

  lemma NextStarts(files: seq<File>, i: nat)
    requires Laid(files, |files|) && i < |files|
    ensures i + 1 < |files| ==> files[i + 1].offset == files[i].offset + files[i].size
    ensures i + 1 == |files| ==> Sum(files) == files[i].offset + files[i].size
  {
    assert files[..i + 1][..i] == files[..i];
    assert files[..|files|] == files;
  }

  lemma HeldBy(files: seq<File>, i: nat, offset: nat)
    requires Laid(files, |files|) && i < |files| && offset < Sum(files)
    requires i + 1 < |files| ==> files[i + 1].offset > offset
    ensures offset < files[i].offset + files[i].size
  {
    NextStarts(files, i);
  }

  lemma EndsBefore(files: seq<File>, i: nat)
    requires Laid(files, |files|) && i < |files|
    ensures files[i].offset + files[i].size <= Sum(files)
  {
    SumGrows(files, i + 1, |files|);
    assert files[..i + 1][..i] == files[..i];
    assert files[..|files|] == files;
  }

  lemma DivMod(a: nat, b: nat)
    requires b > 0
    ensures a / b * b + a % b == a && a % b < b
  {
  }

  /** A byte that two slices could hold belongs to one file only. */
  lemma SameFile(files: seq<File>, i: nat, j: nat, offset: nat)
    requires Laid(files, |files|) && i < |files| && j < |files|
    requires files[i].offset <= offset < files[i].offset + files[i].size
    requires files[j].offset <= offset < files[j].offset + files[j].size
    ensures i == j
  {
    NextStarts(files, i);
    NextStarts(files, j);
    LaidSorted(files);
    hide Laid;
    if i < j { assert false; }
    if j < i { assert false; }
  }

  lemma {:induction false} CoversBounds(files: seq<File>, fileBase: seq<nat>, slices: seq<Slice>, from: nat, end: nat)
    requires Covers(files, fileBase, slices, from, end)
    ensures from <= end && (from == end ==> slices == [])
    ensures forall s | s in slices :: Inside(files, fileBase, s) && from <= StartOf(files, fileBase, s) && StartOf(files, fileBase, s) + s.size <= end
  {
    if slices != [] {
      var s := slices[|slices| - 1];
      CoversBounds(files, fileBase, slices[..|slices| - 1], from, StartOf(files, fileBase, s));
      assert slices == slices[..|slices| - 1] + [s];
    }
  }

  /** A range of one file is covered by one slice of it, if the slices are of different files. */
  lemma OneSlice(files: seq<File>, fileBase: seq<nat>, slices: seq<Slice>, index: nat, fileOffset: nat, size: nat)
    requires Laid(files, |files|) && index < |files| && size > 0 && fileOffset + size <= files[index].size
    requires Covers(files, fileBase, slices, files[index].offset + fileOffset, files[index].offset + fileOffset + size)
    requires exists n :: Ascending(slices, n)
    ensures slices == [Slice(index, fileOffset + Base(fileBase, index), size)]
  {
    var from := files[index].offset + fileOffset;
    assert forall k | 0 < k < |slices| :: slices[0].index < slices[k].index;
    CoversBounds(files, fileBase, slices, from, from + size);
    forall k | 0 <= k < |slices|
      ensures slices[k].index == index
    {
      assert slices[k] in slices;
      SameFile(files, index, slices[k].index, StartOf(files, fileBase, slices[k]));
    }
    assert |slices| == 1;
    assert slices == [slices[0]] && slices[..0] == [];
  }

  function SizeOf(index: nat, numPieces: nat, pieceLength: nat, totalSize: nat): int
    requires index < numPieces
  {
    if index == numPieces - 1 then totalSize - (numPieces - 1) * pieceLength else pieceLength
  }

  function TotalOf(n: nat, numPieces: nat, pieceLength: nat, totalSize: nat): int
    requires n <= numPieces
  {
    if n == 0 then 0 else TotalOf(n - 1, numPieces, pieceLength, totalSize) + SizeOf(n - 1, numPieces, pieceLength, totalSize)
  }

  /** The pieces add up to the torrent. With the number of pieces rounded up, each has a byte and none is too long. */
  lemma PiecesAddUp(numPieces: nat, pieceLength: nat, totalSize: nat)
    requires pieceLength > 0 && totalSize > 0 && numPieces == (totalSize + pieceLength - 1) / pieceLength
    ensures numPieces > 0 && TotalOf(numPieces, numPieces, pieceLength, totalSize) == totalSize
    ensures forall k | 0 <= k < numPieces :: 0 < SizeOf(k, numPieces, pieceLength, totalSize) <= pieceLength
  {
    DivMod(totalSize + pieceLength - 1, pieceLength);
    var r := (totalSize + pieceLength - 1) % pieceLength;
    assert numPieces * pieceLength == totalSize + pieceLength - 1 - r;
    assert (numPieces - 1) * pieceLength == numPieces * pieceLength - pieceLength;
    assert numPieces * pieceLength > 0;
    WholePieces(numPieces - 1, numPieces, pieceLength, totalSize);
  }

  lemma {:induction false} WholePieces(n: nat, numPieces: nat, pieceLength: nat, totalSize: nat)
    requires n < numPieces
    ensures TotalOf(n, numPieces, pieceLength, totalSize) == n * pieceLength
  {
    if n > 0 {
      WholePieces(n - 1, numPieces, pieceLength, totalSize);
      assert n * pieceLength == (n - 1) * pieceLength + pieceLength;
    }
  }
}
