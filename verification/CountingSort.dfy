/** The counts behind the full rebuild of the buckets: how many pieces have a priority, and where each lands. */
module CountingSort {
  import opened PieceTypes
  import opened Buckets

  /** The number of pieces before n whose priority is p. */
  ghost function Count(prios: seq<int>, p: int, n: nat): (c: nat)
    requires n <= |prios|
    ensures c <= n
  {
    if n == 0 then 0 else Count(prios, p, n - 1) + if prios[n - 1] == p then 1 else 0
  }

  /** The number of pieces in the buckets up to and including p. */
  ghost function UpTo(prios: seq<int>, p: int): (c: nat)
    decreases p + 1
  {
    if p < 0 then 0 else UpTo(prios, p - 1) + Count(prios, p, |prios|)
  }

  /** The slot counting sort gives to a piece: after all lower buckets, in index order within its own. */
  ghost function SlotOf(prios: seq<int>, i: nat): int
    requires i < |prios|
  {
    UpTo(prios, prios[i] - 1) + Count(prios, prios[i], i)
  }

  lemma {:induction false} CountGrows(prios: seq<int>, p: int, m: nat, n: nat)
    requires m <= n <= |prios|
    ensures Count(prios, p, m) <= Count(prios, p, n)
    ensures m < n && prios[m] == p ==> Count(prios, p, m) < Count(prios, p, n)
  {
    if m < n {
      CountGrows(prios, p, m, n - 1);
    }
  }

  lemma {:induction false} UpToGrows(prios: seq<int>, p: int, q: int)
    requires p <= q
    ensures UpTo(prios, p) <= UpTo(prios, q)
    ensures p < q ==> UpTo(prios, p) + Count(prios, q, |prios|) <= UpTo(prios, q) || q < 0
    decreases q - p
  {
    if p < q {
      UpToGrows(prios, p, q - 1);
    }
  }

  lemma SlotInBucket(prios: seq<int>, i: nat)
    requires i < |prios| && prios[i] >= 0
    ensures UpTo(prios, prios[i] - 1) <= SlotOf(prios, i) < UpTo(prios, prios[i])
  {
    CountGrows(prios, prios[i], i, |prios|);
  }

  /** No two wanted pieces get the same slot. */
  lemma SlotsDiffer(prios: seq<int>, i: nat, j: nat)
    requires i < |prios| && j < |prios| && i != j && prios[i] >= 0 && prios[j] >= 0
    ensures SlotOf(prios, i) != SlotOf(prios, j)
  {
    SlotInBucket(prios, i);
    SlotInBucket(prios, j);
    if prios[i] < prios[j] {
      UpToGrows(prios, prios[i], prios[j] - 1);
    } else if prios[j] < prios[i] {
      UpToGrows(prios, prios[j], prios[i] - 1);
    } else {
      CountGrows(prios, prios[i], if i < j then i else j, if i < j then j else i);
    }
  }

  lemma {:induction false} RankTaken(prios: seq<int>, p: int, n: nat, r: nat) returns (i: nat)
    requires n <= |prios| && r < Count(prios, p, n)
    ensures i < n && prios[i] == p && Count(prios, p, i) == r
  {
    if prios[n - 1] == p && Count(prios, p, n - 1) == r {
      i := n - 1;
    } else {
      i := RankTaken(prios, p, n - 1, r);
    }
  }

  /** Every slot of the rebuilt list is some wanted piece's slot. */
  lemma {:induction false} SlotTaken(prios: seq<int>, p: int, k: nat) returns (i: nat)
    requires k < UpTo(prios, p)
    ensures i < |prios| && 0 <= prios[i] <= p && SlotOf(prios, i) == k
    decreases p + 1
  {
    if k < UpTo(prios, p - 1) {
      i := SlotTaken(prios, p - 1, k);
    } else {
      i := RankTaken(prios, p, |prios|, k - UpTo(prios, p - 1));
    }
  }

  /** No wanted piece lies past the last bucket: counts there are zero. */
  lemma {:induction false} CountNone(prios: seq<int>, p: int, n: nat)
    requires n <= |prios| && forall i | 0 <= i < n :: prios[i] != p
    ensures Count(prios, p, n) == 0
  {
    if n > 0 { CountNone(prios, p, n - 1); }
  }

  /** A rebuilt list whose back-pointers are not yet set: slots in range, in the right buckets, no
      duplicates, nothing wanted left out. */
  ghost predicate Packed(pieces: seq<int>, bounds: seq<int>, prios: seq<int>) {
    && Boundaries(bounds, |pieces|)
    && (forall k | 0 <= k < |pieces| :: 0 <= pieces[k] < |prios| && InBucket(bounds, prios[pieces[k]], k))
    && (forall j, k | 0 <= j < k < |pieces| :: pieces[j] != pieces[k])
    && (forall i | 0 <= i < |prios| && prios[i] >= 0 :: i in pieces)
  }

  lemma CumulativeBoundaries(bounds: seq<int>, prios: seq<int>)
    requires Summed(bounds, prios)
    ensures Boundaries(bounds, bounds[|bounds| - 1])
  {
    forall p, q | 0 <= p <= q < |bounds|
      ensures bounds[p] <= bounds[q]
    {
      UpToGrows(prios, p, q);
    }
  }

  /** Putting every wanted piece at its slot packs the list. */
  lemma DistributedIsPacked(pieces: seq<int>, bounds: seq<int>, prios: seq<int>)
    requires Summed(bounds, prios) && |pieces| == bounds[|bounds| - 1]
    requires Distributed(pieces, prios, |prios|)
    ensures Packed(pieces, bounds, prios)
  {
    CumulativeBoundaries(bounds, prios);
    forall k | 0 <= k < |pieces|
      ensures 0 <= pieces[k] < |prios| && prios[pieces[k]] >= 0 && SlotOf(prios, pieces[k]) == k
      ensures InBucket(bounds, prios[pieces[k]], k)
    {
      var i := SlotTaken(prios, |bounds| - 1, k);
      SlotInBucket(prios, i);
    }
  }

  lemma SwapKeepsPacked(pieces: seq<int>, bounds: seq<int>, prios: seq<int>, p: int, j: int, k: int)
    requires Packed(pieces, bounds, prios)
    requires InBucket(bounds, p, j) && InBucket(bounds, p, k)
    ensures 0 <= j < |pieces| && 0 <= k < |pieces|
    ensures Packed(pieces[j := pieces[k]][k := pieces[j]], bounds, prios)
  {
    var pieces' := pieces[j := pieces[k]][k := pieces[j]];
    BucketIsUnique(bounds, |pieces|, p, prios[pieces[j]], j);
    BucketIsUnique(bounds, |pieces|, p, prios[pieces[k]], k);
    forall i | 0 <= i < |prios| && prios[i] >= 0
      ensures i in pieces'
    {
      var m :| 0 <= m < |pieces| && pieces[m] == i;
      assert pieces'[if m == j then k else if m == k then j else m] == i;
    }
  }

  lemma PackedIsClean(pieces: seq<int>, bounds: seq<int>, pieceMap: seq<PiecePos>, prios: seq<int>)
    requires Packed(pieces, bounds, prios) && |prios| == |pieceMap|
    requires forall k | 0 <= k < |pieces| :: pieceMap[pieces[k]].index == k
    ensures Clean(pieces, bounds, pieceMap, prios)
  {
    forall i | 0 <= i < |pieceMap| && prios[i] >= 0
      ensures Listed(pieces, pieceMap, i)
    {
      var m :| 0 <= m < |pieces| && pieces[m] == i;
    }
    forall k | 0 <= k < |pieces|
      ensures Pointed(pieces, pieceMap, k)
    {
    }
  }

  /** The pieces listed in bucket p. */
  ghost function BucketSet(pieces: seq<int>, bounds: seq<int>, p: int): set<int>
    requires Boundaries(bounds, |pieces|)
  {
    set k | 0 <= k < |pieces| && InBucket(bounds, p, k) :: pieces[k]
  }

  lemma {:induction false} CountIsCardinality(prios: seq<int>, p: int, n: nat)
    requires n <= |prios|
    ensures |set i | 0 <= i < n && prios[i] == p| == Count(prios, p, n)
  {
    if n > 0 {
      CountIsCardinality(prios, p, n - 1);
      var before := set i | 0 <= i < n - 1 && prios[i] == p;
      var now := set i | 0 <= i < n && prios[i] == p;
      assert now == if prios[n - 1] == p then before + {n - 1} else before;
    }
  }

  lemma {:induction false} UpToIsCardinality(prios: seq<int>, p: int)
    ensures |set i | 0 <= i < |prios| && 0 <= prios[i] <= p| == UpTo(prios, p)
    decreases p + 1
  {
    var now := set i | 0 <= i < |prios| && 0 <= prios[i] <= p;
    if p < 0 {
      assert now == {};
    } else {
      UpToIsCardinality(prios, p - 1);
      CountIsCardinality(prios, p, |prios|);
      var below := set i | 0 <= i < |prios| && 0 <= prios[i] <= p - 1;
      var here := set i | 0 <= i < |prios| && prios[i] == p;
      assert now == below + here && below !! here;
    }
  }

  lemma {:induction false} NoDuplicates(s: seq<int>)
    requires forall j, k | 0 <= j < k < |s| :: s[j] != s[k]
    ensures |set x | x in s| == |s|
  {
    if |s| > 0 {
      var t := s[..|s| - 1];
      NoDuplicates(t);
      assert (set x | x in s) == (set x | x in t) + {s[|s| - 1]};
    }
  }

  /** In a clean picker every boundary counts the pieces of its bucket and all lower ones. */
  lemma BoundaryCounts(pieces: seq<int>, bounds: seq<int>, pieceMap: seq<PiecePos>, prios: seq<int>, p: int)
    requires Clean(pieces, bounds, pieceMap, prios) && 0 <= p < |bounds|
    ensures bounds[p] == UpTo(prios, p)
  {
    var t := pieces[..bounds[p]];
    forall j, k | 0 <= j < k < |t|
      ensures t[j] != t[k]
    {
      assert Pointed(pieces, pieceMap, j) && Pointed(pieces, pieceMap, k);
    }
    NoDuplicates(t);
    UpToIsCardinality(prios, p);
    var wanted := set i | 0 <= i < |prios| && 0 <= prios[i] <= p;
    forall x
      ensures x in t <==> x in wanted
    {
      if x in t {
        var k :| 0 <= k < |t| && t[k] == x;
        assert Pointed(pieces, pieceMap, k) && InBucket(bounds, prios[x], k);
      }
      if x in wanted {
        assert Listed(pieces, pieceMap, x);
        var k := pieceMap[x].index;
        assert Pointed(pieces, pieceMap, k) && InBucket(bounds, prios[x], k);
        assert t[k] == x;
      }
    }
    assert (set x | x in t) == wanted;
  }

  /** In a clean picker bucket p holds exactly the pieces of priority p, for every p. */
  lemma BucketContents(pieces: seq<int>, bounds: seq<int>, pieceMap: seq<PiecePos>, prios: seq<int>, p: int)
    requires Clean(pieces, bounds, pieceMap, prios) && p >= 0
    ensures BucketSet(pieces, bounds, p) == set i | 0 <= i < |prios| && prios[i] == p
  {
    forall x
      ensures x in BucketSet(pieces, bounds, p) <==> 0 <= x < |prios| && prios[x] == p
    {
      if x in BucketSet(pieces, bounds, p) {
        var k :| 0 <= k < |pieces| && InBucket(bounds, p, k) && pieces[k] == x;
        assert Pointed(pieces, pieceMap, k);
        BucketIsUnique(bounds, |pieces|, p, prios[x], k);
      }
      if 0 <= x < |prios| && prios[x] == p {
        assert Listed(pieces, pieceMap, x) && Pointed(pieces, pieceMap, pieceMap[x].index);
      }
    }
  }

  lemma {:induction false} SetOfNoDuplicates(s: seq<int>)
    requires forall j, k | 0 <= j < k < |s| :: s[j] != s[k]
    ensures multiset(s) == multiset(set x | x in s)
  {
    if |s| > 0 {
      var t := s[..|s| - 1];
      SetOfNoDuplicates(t);
      assert s == t + [s[|s| - 1]];
      assert (set x | x in s) == (set x | x in t) + {s[|s| - 1]};
    }
  }

  /** A clean list holds every wanted piece exactly once and nothing else. */
  lemma CleanMultiset(pieces: seq<int>, bounds: seq<int>, pieceMap: seq<PiecePos>, prios: seq<int>)
    requires Clean(pieces, bounds, pieceMap, prios)
    ensures multiset(pieces) == multiset(set i | 0 <= i < |prios| && prios[i] >= 0)
  {
    forall j, k | 0 <= j < k < |pieces|
      ensures pieces[j] != pieces[k]
    {
      assert Pointed(pieces, pieceMap, j) && Pointed(pieces, pieceMap, k);
    }
    SetOfNoDuplicates(pieces);
    forall x
      ensures x in pieces <==> 0 <= x < |prios| && prios[x] >= 0
    {
      if x in pieces {
        var k :| 0 <= k < |pieces| && pieces[k] == x;
        assert Pointed(pieces, pieceMap, k);
      }
      if 0 <= x < |prios| && prios[x] >= 0 {
        assert Listed(pieces, pieceMap, x);
      }
    }
    assert (set x | x in pieces) == set i | 0 <= i < |prios| && prios[i] >= 0;
  }

  /** Two clean pickers over the same priorities agree, up to the order inside a bucket and empty buckets
      at the end: what incremental moves maintain is what a full rebuild computes. */
  lemma CleanIsUnique(pieces: seq<int>, bounds: seq<int>, pieceMap: seq<PiecePos>,
                      pieces': seq<int>, bounds': seq<int>, pieceMap': seq<PiecePos>, prios: seq<int>)
    requires Clean(pieces, bounds, pieceMap, prios) && Clean(pieces', bounds', pieceMap', prios)
    ensures |pieces| == |pieces'| && multiset(pieces) == multiset(pieces')
    ensures forall p | 0 <= p < |bounds| && p < |bounds'| :: bounds[p] == bounds'[p]
    ensures forall p | |bounds| <= p < |bounds'| :: bounds'[p] == |pieces|
    ensures forall p | p >= 0 :: BucketSet(pieces, bounds, p) == BucketSet(pieces', bounds', p)
  {
    forall p | 0 <= p < |bounds|
      ensures bounds[p] == UpTo(prios, p)
    {
      BoundaryCounts(pieces, bounds, pieceMap, prios, p);
    }
    forall p | 0 <= p < |bounds'|
      ensures bounds'[p] == UpTo(prios, p)
    {
      BoundaryCounts(pieces', bounds', pieceMap', prios, p);
    }
    forall p | p >= 0
      ensures BucketSet(pieces, bounds, p) == BucketSet(pieces', bounds', p)
    {
      BucketContents(pieces, bounds, pieceMap, prios, p);
      BucketContents(pieces', bounds', pieceMap', prios, p);
    }
    CleanMultiset(pieces, bounds, pieceMap, prios);
    CleanMultiset(pieces', bounds', pieceMap', prios);
    assert |multiset(pieces)| == |multiset(pieces')|;
    if |bounds| <= |bounds'| {
      assert bounds'[|bounds| - 1] == bounds[|bounds| - 1] == |pieces|;
    }
  }

  /** The first n indices. */
  ghost function Below(n: nat): (s: set<int>)
    ensures |s| == n
    ensures forall i :: i in s <==> 0 <= i < n
  {
    if n == 0 then {} else Below(n - 1) + {n - 1}
  }

  lemma SubsetIsSmaller(a: set<int>, b: set<int>)
    requires a <= b
    ensures |a| <= |b|
  {
    assert b == a + (b - a);
  }

  /** A packed list is no longer than the piece map. */
  lemma NoMoreThanPieces(pieces: seq<int>, bounds: seq<int>, prios: seq<int>)
    requires Packed(pieces, bounds, prios)
    ensures |pieces| <= |prios|
  {
    NoDuplicates(pieces);
    SubsetIsSmaller((set x | x in pieces), Below(|prios|));
  }

  /** The first pass after n pieces: boundaries are bucket sizes so far, back-pointers are ranks. */
  ghost predicate Counted(bounds: seq<int>, pieceMap: seq<PiecePos>, prios: seq<int>, n: nat) {
    && n <= |prios| == |pieceMap| && (n == |prios| ==> Ranked(pieceMap, prios))
    && (forall p | 0 <= p < |bounds| :: bounds[p] == Count(prios, p, n))
    && (forall i | 0 <= i < n :: prios[i] < |bounds|)
    && (forall i | 0 <= i < n && prios[i] >= 0 :: pieceMap[i].index == Count(prios, prios[i], i))
  }

  lemma CountedStart(n: nat, pieceMap: seq<PiecePos>, prios: seq<int>)
    requires |prios| == |pieceMap|
    ensures Counted(seq(n, _ => 0), pieceMap, prios, 0)
  {
  }

  lemma CountedGrows(bounds: seq<int>, more: nat, pieceMap: seq<PiecePos>, prios: seq<int>, n: nat)
    requires Counted(bounds, pieceMap, prios, n)
    ensures Counted(bounds + seq(more, _ => 0), pieceMap, prios, n)
  {
    var bounds' := bounds + seq(more, _ => 0);
    forall q | |bounds| <= q < |bounds'|
      ensures bounds'[q] == Count(prios, q, n)
    {
      CountNone(prios, q, n);
    }
  }

  lemma CountedStep(bounds: seq<int>, pieceMap: seq<PiecePos>, prios: seq<int>, n: nat)
    requires Counted(bounds, pieceMap, prios, n) && n < |prios| && prios[n] < |bounds|
    ensures prios[n] < 0 ==> Counted(bounds, pieceMap, prios, n + 1)
    ensures prios[n] >= 0 ==>
              var rank := bounds[prios[n]];
              && 0 <= rank <= n
              && Counted(bounds[prios[n] := rank + 1], pieceMap[n := pieceMap[n].(index := rank)], prios, n + 1)
  {
  }

  /** The third pass after n pieces: every wanted one is at its slot. */
  ghost predicate Distributed(pieces: seq<int>, prios: seq<int>, n: nat) {
    && n <= |prios|
    && forall i | 0 <= i < n && prios[i] >= 0 :: 0 <= SlotOf(prios, i) < |pieces| && pieces[SlotOf(prios, i)] == i
  }

  lemma DistributedStart(pieces: seq<int>, prios: seq<int>)
    ensures Distributed(pieces, prios, 0)
  {
  }

  /** Back-pointers are ranks inside the bucket. */
  ghost predicate Ranked(pieceMap: seq<PiecePos>, prios: seq<int>) {
    && |prios| == |pieceMap|
    && forall i | 0 <= i < |prios| && prios[i] >= 0 :: pieceMap[i].index == Count(prios, prios[i], i)
  }

  /** The boundaries after the second pass. */
  ghost predicate Summed(bounds: seq<int>, prios: seq<int>) {
    && 0 < |bounds|
    && (forall p | 0 <= p < |bounds| :: bounds[p] == UpTo(prios, p))
    && (forall i | 0 <= i < |prios| :: prios[i] < |bounds|)
  }

  lemma DistributedStep(pieces: seq<int>, bounds: seq<int>, pieceMap: seq<PiecePos>, seeds: nat, prios: seq<int>, n: nat)
    requires Distributed(pieces, prios, n) && n < |prios|
    requires Summed(bounds, prios) && |pieces| == bounds[|bounds| - 1]
    requires Ranked(pieceMap, prios) && prios == Priorities(pieceMap, seeds)
    ensures n < |pieceMap|
    ensures
      var p := pieceMap[n].Priority(seeds);
      if p == -1 then Distributed(pieces, prios, n + 1)
      else
        && 0 <= p < |bounds|
        && var slot := (if p == 0 then 0 else bounds[p - 1]) + pieceMap[n].index;
           0 <= slot < |pieces| && Distributed(pieces[slot := n], prios, n + 1)
  {
    if prios[n] >= 0 {
      SlotInBucket(prios, n);
      UpToGrows(prios, prios[n], |bounds| - 1);
      forall i | 0 <= i < n && prios[i] >= 0
        ensures SlotOf(prios, i) != SlotOf(prios, n)
      {
        SlotsDiffer(prios, i, n);
      }
    }
  }


  /** A clean list that leaves a piece out is shorter than the piece map. */
  lemma RoomForOne(pieces: seq<int>, bounds: seq<int>, pieceMap: seq<PiecePos>, prios: seq<int>, i: nat)
    requires Clean(pieces, bounds, pieceMap, prios) && i < |prios| && prios[i] < 0
    ensures |pieces| < |pieceMap|
  {
    CleanMultiset(pieces, bounds, pieceMap, prios);
    var wanted := set j | 0 <= j < |prios| && prios[j] >= 0;
    assert |multiset(pieces)| == |wanted|;
    SubsetIsSmaller(wanted + {i}, Below(|prios|));
  }

  lemma NoLongerThanMap(pieces: seq<int>, bounds: seq<int>, pieceMap: seq<PiecePos>, prios: seq<int>)
    requires Clean(pieces, bounds, pieceMap, prios)
    ensures |pieces| <= |pieceMap|
  {
    CleanMultiset(pieces, bounds, pieceMap, prios);
    var wanted := set j | 0 <= j < |prios| && prios[j] >= 0;
    assert |multiset(pieces)| == |wanted|;
    SubsetIsSmaller(wanted, Below(|prios|));
  }

  /** The priority of a listed piece has a bucket. */
  lemma PriorityHasBucket(pieces: seq<int>, bounds: seq<int>, pieceMap: seq<PiecePos>, prios: seq<int>, i: nat)
    requires Clean(pieces, bounds, pieceMap, prios) && i < |prios|
    ensures prios[i] < |bounds|
  {
    if prios[i] >= 0 {
      assert Listed(pieces, pieceMap, i) && Pointed(pieces, pieceMap, pieceMap[i].index);
    }
  }

  /** Changing one piece's record leaves the list clean for its old priority, as long as its
      back-pointer stays or it was not listed. */
  lemma ChangeOne(pieces: seq<int>, bounds: seq<int>, pieceMap: seq<PiecePos>, seeds: nat, i: nat, p: PiecePos)
    requires i < |pieceMap|
    requires Clean(pieces, bounds, pieceMap, Priorities(pieceMap, seeds))
    requires p.index == pieceMap[i].index || pieceMap[i].Priority(seeds) == -1
    ensures Clean(pieces, bounds, pieceMap[i := p],
                  Priorities(pieceMap[i := p], seeds)[i := pieceMap[i].Priority(seeds)])
  {
    var prios := Priorities(pieceMap, seeds);
    var pieceMap' := pieceMap[i := p];
    assert Priorities(pieceMap', seeds)[i := pieceMap[i].Priority(seeds)] == prios;
    forall k | 0 <= k < |pieces|
      ensures Pointed(pieces, pieceMap', k)
    {
      assert Pointed(pieces, pieceMap, k) && InBucket(bounds, prios[pieces[k]], k);
    }
    forall j | 0 <= j < |pieceMap| && prios[j] >= 0
      ensures Listed(pieces, pieceMap', j)
    {
      assert Listed(pieces, pieceMap, j);
    }
  }
}
