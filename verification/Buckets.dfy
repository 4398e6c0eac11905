/** The flat array of wanted pieces, cut into priority buckets by an array of boundaries. */
module Buckets {
  import opened PieceTypes

  /** Slot k lies in bucket p: bucket 0 starts at 0, bucket p at bounds[p - 1]. */
  predicate InBucket(bounds: seq<int>, p: int, k: int) {
    && 0 <= p < |bounds|
    && 0 <= k < bounds[p]
    && (p > 0 ==> bounds[p - 1] <= k)
  }

  ghost predicate Boundaries(bounds: seq<int>, n: int) {
    && |bounds| > 0
    && 0 <= bounds[0]
    && (forall p, q | 0 <= p <= q < |bounds| :: bounds[p] <= bounds[q])
    && bounds[|bounds| - 1] == n
  }

  /** Slot k holds a real piece whose back-pointer is k. */
  predicate Pointed(pieces: seq<int>, pieceMap: seq<PiecePos>, k: int)
    requires 0 <= k < |pieces|
  {
    0 <= pieces[k] < |pieceMap| && pieceMap[pieces[k]].index == k
  }

  /** The back-pointer of piece i leads to a slot that holds i. */
  predicate Listed(pieces: seq<int>, pieceMap: seq<PiecePos>, i: int)
    requires 0 <= i < |pieceMap|
  {
    pieceMap[i].index < |pieces| && pieces[pieceMap[i].index] == i
  }

  /** The clean picker: every slot is pointed back at and inside the bucket of its piece's priority,
      and every piece with a priority is listed. */
  ghost predicate Clean(pieces: seq<int>, bounds: seq<int>, pieceMap: seq<PiecePos>, prios: seq<int>) {
    && |prios| == |pieceMap|
    && Boundaries(bounds, |pieces|)
    && (forall k | 0 <= k < |pieces| :: Pointed(pieces, pieceMap, k) && InBucket(bounds, prios[pieces[k]], k))
    && (forall i | 0 <= i < |pieceMap| && prios[i] >= 0 :: Listed(pieces, pieceMap, i))
  }

  lemma CleanBoundaries(pieces: seq<int>, bounds: seq<int>, pieceMap: seq<PiecePos>, prios: seq<int>)
    requires Clean(pieces, bounds, pieceMap, prios)
    ensures Boundaries(bounds, |pieces|)
  {
  }

  /** The boundaries after bucket lo..hi-1 grew (or shrank) by delta. */
  ghost function Shifted(bounds: seq<int>, lo: int, hi: int, delta: int): (r: seq<int>)
    ensures |r| == |bounds|
    ensures forall p | 0 <= p < |bounds| :: r[p] == if lo <= p < hi then bounds[p] + delta else bounds[p]
  {
    seq(|bounds|, p requires 0 <= p < |bounds| => if lo <= p < hi then bounds[p] + delta else bounds[p])
  }


  lemma BucketIsUnique(bounds: seq<int>, n: int, p: int, q: int, k: int)
    requires Boundaries(bounds, n) && InBucket(bounds, p, k) && InBucket(bounds, q, k)
    ensures p == q
  {
  }

  /** An insertion or removal in flight: `held` belongs at `slot`, everything below the slot is already
      in place for the final boundaries, everything from the slot up is still as it was. */
  ghost predicate MovingUp(pieces: seq<int>, was: seq<int>, final: seq<int>, pieceMap: seq<PiecePos>,
                           prios: seq<int>, slot: int, held: int) {
    && |prios| == |pieceMap| && |pieces| == |was|
    && 0 <= slot < |pieces|
    && held !in pieces
    && (forall k | 0 <= k < slot :: Pointed(pieces, pieceMap, k) && InBucket(final, prios[pieces[k]], k))
    && (forall k | slot <= k < |pieces| :: pieces[k] == was[k])
    && (forall k | slot <= k < |pieces| - 1 :: Pointed(pieces, pieceMap, k))
    && (forall i | 0 <= i < |pieceMap| && prios[i] >= 0 && i != held :: Listed(pieces, pieceMap, i))
  }


  /** The slots between two neighbouring boundaries hold pieces of that bucket. */
  lemma SameBucket(was: seq<int>, b: seq<int>, prios: seq<int>, p: int, lo: int, hi: int)
    requires Boundaries(b, |was| - 1) && 0 <= lo <= hi <= |was| - 1
    requires forall k | 0 <= k < |was| - 1 :: 0 <= was[k] < |prios| && InBucket(b, prios[was[k]], k)
    requires forall k | lo <= k < hi :: InBucket(b, p, k)
    ensures forall k | lo <= k < hi :: prios[was[k]] == p
  {
    hide InBucket, Boundaries;
    forall k | lo <= k < hi
      ensures prios[was[k]] == p
    {
      BucketIsUnique(b, |was| - 1, p, prios[was[k]], k);
    }
  }

  /** The piece displaced from `slot`, and its bucket's slots after the shift. */
  lemma Displaced(b: seq<int>, n: int, first: int, q: int, slot: int)
    requires Boundaries(b, n) && 0 <= first <= q < |b| && 0 <= slot < b[q]
    requires if q > first then b[q - 1] == slot else InBucket(b, first, slot)
    ensures b[q] <= n && forall k | slot <= k < b[q] :: InBucket(b, q, k)
    ensures forall k | slot < k <= b[q] :: InBucket(Shifted(b, first, |b|, 1), q, k)
  {
  }

  /** Placing the held piece at `slot` leaves the slots above as they were, and points the one at `slot` back. */
  lemma PlaceHeld(pieces: seq<int>, was: seq<int>, final: seq<int>, pieceMap: seq<PiecePos>, prios: seq<int>,
                  slot: int, held: int, end: int, p: int)
    requires MovingUp(pieces, was, final, pieceMap, prios, slot, held) && slot < end < |was|
    requires 0 <= held < |pieceMap| && prios[held] >= 0 && InBucket(final, prios[held], slot)
    requires forall k | slot <= k < end :: 0 <= was[k] < |prios| && prios[was[k]] == p
    requires forall k | slot < k <= end :: InBucket(final, p, k)
    ensures was[slot] == pieces[slot] && 0 <= was[slot] < |prios|
    ensures was[|was| - 1] == -1 ==> MovingUp(pieces[slot := held], was, final, pieceMap[held := pieceMap[held].(index := slot)], prios, end, was[slot])
  {
    hide InBucket;
    var temp := was[slot];
    var pieces' := pieces[slot := held];
    var pieceMap' := pieceMap[held := pieceMap[held].(index := slot)];
    assert Pointed(pieces, pieceMap, slot);
    forall k | 0 <= k < |was| - 1
      ensures Pointed(pieces', pieceMap', k) && pieces'[k] != temp
      ensures k < end ==> InBucket(final, prios[pieces'[k]], k)
    {
      assert k != slot ==> Pointed(pieces, pieceMap, k);
    }
    forall i | 0 <= i < |pieceMap| && prios[i] >= 0 && i != temp
      ensures Listed(pieces', pieceMap', i)
    {
      assert i != held ==> Listed(pieces, pieceMap, i);
    }
  }

  /** Placing the held piece and picking up what it displaces moves the state to the next bucket's end. */
  lemma AdvanceUp(pieces: seq<int>, was: seq<int>, b: seq<int>, first: int, pieceMap: seq<PiecePos>,
                  prios: seq<int>, slot: int, held: int, p: int, next: int)
    requires |was| > 0 && was[|was| - 1] == -1 && Boundaries(b, |was| - 1) && |was| < WE_HAVE_INDEX
    requires 0 <= first <= p < next <= |b|
    requires forall k | 0 <= k < |was| - 1 :: 0 <= was[k] < |prios| && InBucket(b, prios[was[k]], k)
    requires MovingUp(pieces, was, Shifted(b, first, |b|, 1), pieceMap, prios, slot, held)
    requires 0 <= held < |pieceMap| && prios[held] >= 0
    requires InBucket(Shifted(b, first, |b|, 1), prios[held], slot)
    requires 0 <= slot < b[next - 1] < |was|
    requires if next - 1 > first then next >= 2 && b[next - 2] == slot else p == first && InBucket(b, first, slot)
    ensures var pieces' := pieces[slot := held];
      var pieceMap' := pieceMap[held := pieceMap[held].(index := slot)];
      && |pieces| == |was| && 0 <= held < |pieceMap|
      && pieces'[b[next - 1]] == was[b[next - 1]] && 0 <= was[slot] < |prios| && prios[was[slot]] >= 0
      && MovingUp(pieces', was, Shifted(b, first, |b|, 1), pieceMap', prios, b[next - 1], was[slot])
      && InBucket(Shifted(b, first, |b|, 1), prios[was[slot]], b[next - 1])
  {
    Displaced(b, |was| - 1, first, next - 1, slot);
    SameBucket(was, b, prios, next - 1, slot, b[next - 1]);
    PlaceHeld(pieces, was, Shifted(b, first, |b|, 1), pieceMap, prios, slot, held, b[next - 1], next - 1);
    hide InBucket, Boundaries, Shifted, Pointed, Listed;
  }

  /** Placing the held piece in the last slot completes the move. */
  lemma FinishUp(pieces: seq<int>, was: seq<int>, final: seq<int>, pieceMap: seq<PiecePos>,
                 prios: seq<int>, slot: int, held: int)
    requires MovingUp(pieces, was, final, pieceMap, prios, slot, held)
    requires slot == |pieces| - 1 && pieces[slot] == -1 && 0 <= held < |pieceMap| && Boundaries(final, |pieces|)
    requires InBucket(final, prios[held], slot)
    ensures Clean(pieces[slot := held], final, pieceMap[held := pieceMap[held].(index := slot)], prios)
  {
    var pieces' := pieces[slot := held];
    var pieceMap' := pieceMap[held := pieceMap[held].(index := slot)];
    forall k | 0 <= k < |pieces|
      ensures Pointed(pieces', pieceMap', k) && InBucket(final, prios[pieces'[k]], k)
    {
      if k < slot { assert Pointed(pieces, pieceMap, k); }
    }
    forall i | 0 <= i < |pieceMap| && prios[i] >= 0
      ensures Listed(pieces', pieceMap', i)
    {
      assert i != held ==> Listed(pieces, pieceMap, i);
      assert i != held && pieceMap[i].index < slot ==> Pointed(pieces, pieceMap, pieceMap[i].index);
    }
  }

  lemma ShiftedTwice(b: seq<int>, lo: int, mid: int, hi: int, delta: int)
    requires 0 <= lo <= mid <= hi <= |b|
    ensures Shifted(Shifted(b, lo, mid, delta), mid, hi, delta) == Shifted(b, lo, hi, delta)
  {
  }

  /** Where the piece displaced from `slot` goes: past the empty buckets that end there, or nowhere. */
  lemma NextBucket(b: seq<int>, n: int, first: int, p: int, next: int, slot: int)
    requires Boundaries(b, n) && 0 <= first <= p < next <= |b|
    requires if p == first then InBucket(Shifted(b, first, |b|, 1), p, slot) else slot == b[p - 1]
    requires forall q | p <= q < next - 1 :: b[q] == slot
    requires b[next - 1] == slot ==> next == |b|
    ensures 0 <= slot <= n && Boundaries(Shifted(b, first, |b|, 1), n + 1)
    ensures slot < n ==> slot < b[next - 1] <= n
    ensures slot == n ==> next == |b|
    ensures if next - 1 > first then next >= 2 && b[next - 2] == slot
            else p == first && (slot < n ==> InBucket(b, first, slot))
  {
  }

  /** The loop state of an insertion: `held` goes to `slot`, boundaries first..p-1 have been raised. */
  ghost predicate Inserting(pieces: seq<int>, bounds: seq<int>, pieceMap: seq<PiecePos>, slot: int, held: int, p: int,
                            was: seq<int>, b: seq<int>, first: int, prios: seq<int>) {
    && 0 <= slot < |pieces| == |was| < WE_HAVE_INDEX && |prios| == |pieceMap|
    && pieces[slot] == was[slot] && was[|was| - 1] == -1 && Boundaries(b, |was| - 1)
    && 0 <= first <= p < |b| && bounds == Shifted(b, first, p, 1)
    && (forall k | 0 <= k < |was| - 1 :: 0 <= was[k] < |prios| && InBucket(b, prios[was[k]], k))
    && MovingUp(pieces, was, Shifted(b, first, |b|, 1), pieceMap, prios, slot, held)
    && 0 <= held < |pieceMap| && prios[held] >= 0
    && InBucket(Shifted(b, first, |b|, 1), prios[held], slot)
    && (if p == first then InBucket(Shifted(b, first, |b|, 1), p, slot) else slot == b[p - 1])
  }

  /** The result of raising boundaries from p until one is found that did not end at slot. */
  ghost predicate Raised(before: seq<int>, after: seq<int>, p: int, slot: int, end: int, next: int) {
    && 0 <= p < next <= |before|
    && after == Shifted(before, p, next, 1)
    && end == before[next - 1]
    && (forall q | p <= q < next - 1 :: before[q] == slot)
    && (end == slot ==> next == |before|)
  }

  lemma InsertStep(pieces: seq<int>, bounds: seq<int>, pieceMap: seq<PiecePos>, slot: int, held: int, p: int,
                   was: seq<int>, b: seq<int>, first: int, prios: seq<int>,
                   bounds': seq<int>, end: int, next: int)
    requires Inserting(pieces, bounds, pieceMap, slot, held, p, was, b, first, prios)
    requires Raised(bounds, bounds', p, slot, end, next)
    ensures
      var pieces' := pieces[slot := held];
      var pieceMap' := pieceMap[held := pieceMap[held].(index := slot)];
      var temp := pieces[slot];
      && (if temp == -1 then next == |b| else 0 <= temp < |pieceMap| && prios[temp] >= 0 && 0 <= end < |pieces|)
      && (next < |b| ==> Inserting(pieces', bounds', pieceMap', end, temp, next, was, b, first, prios))
      && (next == |b| ==>
            if temp == -1 then Clean(pieces', bounds', pieceMap', prios)
            else Clean(pieces'[end := temp], bounds', pieceMap'[temp := pieceMap'[temp].(index := end)], prios))
  {
    hide MovingUp, Clean, Boundaries, InBucket, Shifted;
    var pieces' := pieces[slot := held];
    var pieceMap' := pieceMap[held := pieceMap[held].(index := slot)];
    var final := Shifted(b, first, |b|, 1);
    ShiftedTwice(b, first, p, next, 1);
    NextBucket(b, |was| - 1, first, p, next, slot);
    if slot == |was| - 1 {
      FinishUp(pieces, was, final, pieceMap, prios, slot, held);
    } else {
      AdvanceUp(pieces, was, b, first, pieceMap, prios, slot, held, p, next);
      if next == |b| {
        FinishUp(pieces', was, final, pieceMap', prios, end, was[slot]);
      }
    }
  }

  /** A clean list without `held`, its buckets extended and a slot pushed at the end, starts the loop. */
  lemma InsertStart(pieces: seq<int>, b0: seq<int>, b: seq<int>, pieceMap: seq<PiecePos>, prios: seq<int>, held: int, slot: int)
    requires 0 <= held < |pieceMap| < WE_HAVE_INDEX && |prios| == |pieceMap| && |pieces| < |pieceMap|
    requires 0 <= prios[held] < |b|
    requires Clean(pieces, b0, pieceMap, prios[held := -1])
    requires Boundaries(b, |pieces|) && forall q, k :: InBucket(b0, q, k) <==> InBucket(b, q, k)
    requires (if prios[held] == 0 then 0 else b[prios[held] - 1]) <= slot <= b[prios[held]]
    ensures Inserting(pieces + [-1], b, pieceMap, slot, held, prios[held], pieces + [-1], b, prios[held], prios)
  {
    var was := pieces + [-1];
    var p := prios[held];
    var final := Shifted(b, p, |b|, 1);
    forall k | 0 <= k < |pieces|
      ensures was[k] != held && Pointed(was, pieceMap, k) && InBucket(b, prios[was[k]], k)
      ensures k < slot ==> InBucket(final, prios[was[k]], k)
    {
      assert Pointed(pieces, pieceMap, k) && InBucket(b0, prios[held := -1][pieces[k]], k);
    }
    forall i | 0 <= i < |pieceMap| && prios[i] >= 0 && i != held
      ensures Listed(was, pieceMap, i)
    {
      assert Listed(pieces, pieceMap, i);
    }
    assert b == Shifted(b, p, p, 1);
  }

  /** The loop state of a removal: `hole` is the slot to fill, boundaries first..p-1 have been lowered.
      `prios` already gives the removed piece `gone` no priority. */
  ghost predicate Removing(pieces: seq<int>, bounds: seq<int>, pieceMap: seq<PiecePos>, hole: int, p: int,
                           was: seq<int>, b: seq<int>, first: int, prios: seq<int>, gone: int) {
    && 0 <= hole < |pieces| == |was| < WE_HAVE_INDEX && |prios| == |pieceMap| && Boundaries(b, |was|)
    && 0 <= first <= p < |b| && bounds == Shifted(b, first, p, -1)
    && 0 <= gone < |prios| && prios[gone] == -1
    && (forall k | 0 <= k < |was| :: 0 <= was[k] < |prios| && InBucket(b, prios[gone := first][was[k]], k))
    && MovingDown(pieces, was, Shifted(b, first, |b|, -1), pieceMap, prios, hole, gone)
    && (if first == 0 then 0 else b[first - 1]) < b[first]
    && (if p == first then InBucket(b, p, hole) else hole == b[p - 1] - 1)
  }

  /** Everything below the hole is in place for the final boundaries, everything above is untouched,
      and no wanted piece points at the hole. */
  ghost predicate MovingDown(pieces: seq<int>, was: seq<int>, final: seq<int>, pieceMap: seq<PiecePos>,
                             prios: seq<int>, hole: int, gone: int) {
    && |prios| == |pieceMap| && |pieces| == |was|
    && 0 <= hole < |pieces|
    && (forall k | 0 <= k < |pieces| && k != hole :: pieces[k] != gone && Pointed(pieces, pieceMap, k))
    && (forall k | 0 <= k < hole :: InBucket(final, prios[pieces[k]], k))
    && (forall k | hole <= k < |pieces| :: pieces[k] == was[k])
    && (forall i | 0 <= i < |pieceMap| && prios[i] >= 0 :: Listed(pieces, pieceMap, i) && pieceMap[i].index != hole)
  }

  /** The result of lowering boundaries from p until a bucket is found whose last slot is not the hole. */
  ghost predicate Lowered(before: seq<int>, after: seq<int>, p: int, hole: int, last: int, next: int) {
    && 0 <= p < next <= |before|
    && after == Shifted(before, p, next, -1)
    && last == before[next - 1] - 1
    && (forall q | p <= q < next - 1 :: before[q] - 1 == hole)
    && (last == hole ==> next == |before|)
  }

  lemma PreviousBucket(b: seq<int>, n: int, first: int, p: int, next: int, bucket: int, hole: int)
    requires Boundaries(b, n) && 0 <= first <= p < next == bucket + 1 <= |b|
    requires if p == first then InBucket(b, p, hole) else hole == b[p - 1] - 1 >= 0
    requires (if first == 0 then 0 else b[first - 1]) < b[first]
    requires forall q | p <= q < next - 1 :: b[q] - 1 == hole
    requires b[next - 1] - 1 == hole ==> next == |b|
    ensures Boundaries(Shifted(b, first, |b|, -1), n - 1)
    ensures 0 <= hole <= b[next - 1] - 1 <= n - 1
    ensures b[next - 1] - 1 == hole <==> hole == n - 1
    ensures next == |b| ==> b[next - 1] - 1 == n - 1
    ensures hole < n - 1 ==> InBucket(Shifted(b, first, |b|, -1), bucket, hole)
    ensures forall k | hole < k < b[bucket] :: InBucket(b, bucket, k)
    ensures forall k | hole < k < b[bucket] - 1 :: InBucket(Shifted(b, first, |b|, -1), bucket, k)
  {
  }

  /** Filling the hole with the last piece of the next bucket moves the hole there. */
  lemma AdvanceDown(pieces: seq<int>, was: seq<int>, b: seq<int>, first: int, pieceMap: seq<PiecePos>,
                    prios: seq<int>, hole: int, gone: int, last: int, bucket: int)
    requires Boundaries(b, |was|) && 0 <= gone < |prios| && prios[gone] == -1
    requires forall k | 0 <= k < |was| :: 0 <= was[k] < |prios| && InBucket(b, prios[gone := first][was[k]], k)
    requires MovingDown(pieces, was, Shifted(b, first, |b|, -1), pieceMap, prios, hole, gone)
    requires hole < last < |was|
    requires InBucket(Shifted(b, first, |b|, -1), bucket, hole)
    requires forall k | hole < k <= last :: InBucket(b, bucket, k)
    requires forall k | hole < k < last :: InBucket(Shifted(b, first, |b|, -1), bucket, k)
    ensures 0 <= pieces[last] < |pieceMap| && prios[pieces[last]] >= 0
    ensures MovingDown(pieces[hole := pieces[last]], was, Shifted(b, first, |b|, -1),
                       pieceMap[pieces[last] := pieceMap[pieces[last]].(index := hole)], prios, last, gone)
  {
    var piece := pieces[last];
    assert Pointed(pieces, pieceMap, last);
    var pieces' := pieces[hole := piece];
    var pieceMap' := pieceMap[piece := pieceMap[piece].(index := hole)];
    var final := Shifted(b, first, |b|, -1);
    forall k | hole < k <= last
      ensures prios[pieces[k]] == bucket
    {
      assert Pointed(pieces, pieceMap, k) && was[k] == pieces[k] != gone;
      BucketIsUnique(b, |was|, bucket, prios[was[k]], k);
    }
    forall k | 0 <= k < |pieces| && k != last
      ensures pieces'[k] != gone && Pointed(pieces', pieceMap', k)
      ensures k < last ==> InBucket(final, prios[pieces'[k]], k)
    {
      if k != hole { assert Pointed(pieces, pieceMap, k); }
    }
    forall i | 0 <= i < |pieceMap| && prios[i] >= 0
      ensures Listed(pieces', pieceMap', i) && pieceMap'[i].index != last
    {
      assert Listed(pieces, pieceMap, i);
    }
  }

  /** With the hole at the end, dropping the last slot completes the removal. */
  lemma FinishDown(pieces: seq<int>, was: seq<int>, final: seq<int>, pieceMap: seq<PiecePos>,
                   prios: seq<int>, hole: int, gone: int)
    requires MovingDown(pieces, was, final, pieceMap, prios, hole, gone)
    requires hole == |pieces| - 1 && Boundaries(final, |pieces| - 1)
    ensures Clean(pieces[..hole], final, pieceMap, prios)
  {
    forall k | 0 <= k < hole
      ensures Pointed(pieces[..hole], pieceMap, k)
    {
      assert Pointed(pieces, pieceMap, k);
    }
    forall i | 0 <= i < |pieceMap| && prios[i] >= 0
      ensures Listed(pieces[..hole], pieceMap, i)
    {
      assert Listed(pieces, pieceMap, i);
    }
  }

  /** The bucket search ends at the hole itself: it is the last slot, and dropping it finishes. */
  lemma RemoveEnd(pieces: seq<int>, bounds: seq<int>, pieceMap: seq<PiecePos>, hole: int, p: int,
                  was: seq<int>, b: seq<int>, first: int, prios: seq<int>, gone: int,
                  bounds': seq<int>, last: int, next: int)
    requires Removing(pieces, bounds, pieceMap, hole, p, was, b, first, prios, gone)
    requires Lowered(bounds, bounds', p, hole, last, next) && last == hole
    ensures hole == |pieces| - 1 && Clean(pieces[..hole], bounds', pieceMap, prios)
  {
    hide MovingDown, Clean;
    ShiftedTwice(b, first, p, next, -1);
    PreviousBucket(b, |was|, first, p, next, next - 1, hole);
    FinishDown(pieces, was, Shifted(b, first, |b|, -1), pieceMap, prios, hole, gone);
  }

  lemma RemoveStep(pieces: seq<int>, bounds: seq<int>, pieceMap: seq<PiecePos>, hole: int, p: int,
                   was: seq<int>, b: seq<int>, first: int, prios: seq<int>, gone: int,
                   bounds': seq<int>, last: int, next: int)
    requires Removing(pieces, bounds, pieceMap, hole, p, was, b, first, prios, gone)
    requires Lowered(bounds, bounds', p, hole, last, next) && last != hole
    ensures 0 <= last < |pieces| && 0 <= pieces[last] < |pieceMap| && prios[pieces[last]] >= 0
    ensures var pieces' := pieces[hole := pieces[last]];
      var pieceMap' := pieceMap[pieces[last] := pieceMap[pieces[last]].(index := hole)];
      if next < |b| then Removing(pieces', bounds', pieceMap', last, next, was, b, first, prios, gone)
      else Clean(pieces'[..|pieces| - 1], bounds', pieceMap', prios)
  {
    hide MovingDown, Clean, InBucket, Boundaries, Shifted;
    var final := Shifted(b, first, |b|, -1);
    ShiftedTwice(b, first, p, next, -1);
    PreviousBucket(b, |was|, first, p, next, next - 1, hole);
    AdvanceDown(pieces, was, b, first, pieceMap, prios, hole, gone, last, next - 1);
    if next == |b| {
      FinishDown(pieces[hole := pieces[last]], was, final,
                 pieceMap[pieces[last] := pieceMap[pieces[last]].(index := hole)], prios, last, gone);
    }
  }

  /** A piece in transit between buckets: slot `hole` is to be filled, and every other wanted piece
      is listed somewhere else. */
  ghost predicate Floating(pieces: seq<int>, pieceMap: seq<PiecePos>, prios: seq<int>, hole: int, moving: int) {
    && |prios| == |pieceMap| && 0 <= hole < |pieces|
    && (forall k | 0 <= k < |pieces| && k != hole :: pieces[k] != moving && Pointed(pieces, pieceMap, k))
    && (forall i | 0 <= i < |pieceMap| && prios[i] >= 0 && i != moving ::
          Listed(pieces, pieceMap, i) && pieceMap[i].index != hole)
  }

  /** Slots lo..hi-1 are inside the buckets of their pieces. */
  ghost predicate Settled(pieces: seq<int>, bounds: seq<int>, prios: seq<int>, lo: int, hi: int)
    requires 0 <= lo && hi <= |pieces|
  {
    forall k | lo <= k < hi :: 0 <= pieces[k] < |prios| && InBucket(bounds, prios[pieces[k]], k)
  }

  /** What both directions of an update share: the list before, and where the piece came from. */
  ghost predicate UpdateOf(was: seq<int>, b: seq<int>, prios: seq<int>, from: int, dest: int, moving: int) {
    && |was| < WE_HAVE_INDEX && Boundaries(b, |was|)
    && 0 <= from < |b| && 0 <= dest < |b| && (if from == 0 then 0 else b[from - 1]) < b[from]
    && 0 <= moving < |prios| && prios[moving] == dest
    && Settled(was, b, prios[moving := from], 0, |was|)
  }

  /** The loop state of a move to a lower bucket: boundaries p..from-1 have been raised. */
  ghost predicate Promoting(pieces: seq<int>, bounds: seq<int>, pieceMap: seq<PiecePos>, hole: int, p: int,
                            was: seq<int>, b: seq<int>, prios: seq<int>, from: int, dest: int, moving: int) {
    && UpdateOf(was, b, prios, from, dest, moving) && |pieces| == |was|
    && dest <= p <= from && bounds == Shifted(b, p, from, 1)
    && Floating(pieces, pieceMap, prios, hole, moving)
    && (forall k | 0 <= k <= hole :: pieces[k] == was[k])
    && Settled(pieces, Shifted(b, dest, from, 1), prios, hole + 1, |pieces|)
    && 0 <= pieces[hole] < |pieceMap| && (pieces[hole] == moving || pieceMap[pieces[hole]].index > hole)
    && (if p == from then InBucket(b, p, hole) else hole == b[p])
  }

  /** The loop state of a move to a higher bucket: boundaries from..p-1 have been lowered. */
  ghost predicate Demoting(pieces: seq<int>, bounds: seq<int>, pieceMap: seq<PiecePos>, hole: int, p: int,
                           was: seq<int>, b: seq<int>, prios: seq<int>, from: int, dest: int, moving: int) {
    && UpdateOf(was, b, prios, from, dest, moving) && |pieces| == |was|
    && from <= p <= dest && bounds == Shifted(b, from, p, -1)
    && Floating(pieces, pieceMap, prios, hole, moving)
    && (forall k | hole <= k < |pieces| :: pieces[k] == was[k])
    && Settled(pieces, Shifted(b, from, dest, -1), prios, 0, hole)
    && 0 <= pieces[hole] < |pieceMap| && (pieces[hole] == moving || pieceMap[pieces[hole]].index < hole)
    && (if p == from then InBucket(b, p, hole) else hole == b[p - 1] - 1)
  }

  /** Moving the piece at `slot` into the hole moves the hole to `slot`. */
  lemma FillHole(pieces: seq<int>, pieceMap: seq<PiecePos>, prios: seq<int>, hole: int, moving: int, slot: int)
    requires Floating(pieces, pieceMap, prios, hole, moving)
    requires 0 <= slot < |pieces| && slot != hole
    ensures 0 <= pieces[slot] < |pieceMap|
    ensures Floating(pieces[hole := pieces[slot]],
                     pieceMap[pieces[slot] := pieceMap[pieces[slot]].(index := hole)], prios, slot, moving)
  {
    var temp := pieces[slot];
    assert Pointed(pieces, pieceMap, slot);
    var pieces' := pieces[hole := temp];
    var pieceMap' := pieceMap[temp := pieceMap[temp].(index := hole)];
    forall k | 0 <= k < |pieces| && k != slot
      ensures pieces'[k] != moving && Pointed(pieces', pieceMap', k)
    {
      if k != hole { assert Pointed(pieces, pieceMap, k); }
    }
    forall i | 0 <= i < |pieceMap| && prios[i] >= 0 && i != moving
      ensures Listed(pieces', pieceMap', i) && pieceMap'[i].index != slot
    {
      assert Listed(pieces, pieceMap, i);
    }
  }

  /** Putting the moving piece into the hole completes the update. */
  lemma LandInHole(pieces: seq<int>, bounds: seq<int>, pieceMap: seq<PiecePos>, prios: seq<int>, hole: int, moving: int)
    requires Floating(pieces, pieceMap, prios, hole, moving) && Boundaries(bounds, |pieces|)
    requires 0 <= moving < |prios| && InBucket(bounds, prios[moving], hole)
    requires Settled(pieces, bounds, prios, 0, hole) && Settled(pieces, bounds, prios, hole + 1, |pieces|)
    ensures Clean(pieces[hole := moving], bounds, pieceMap[moving := pieceMap[moving].(index := hole)], prios)
  {
    var pieces' := pieces[hole := moving];
    var pieceMap' := pieceMap[moving := pieceMap[moving].(index := hole)];
    forall k | 0 <= k < |pieces|
      ensures Pointed(pieces', pieceMap', k) && InBucket(bounds, prios[pieces'[k]], k)
    {
      if k != hole { assert Pointed(pieces, pieceMap, k); }
    }
    forall i | 0 <= i < |pieceMap| && prios[i] >= 0
      ensures Listed(pieces', pieceMap', i)
    {
      if i != moving { assert Listed(pieces, pieceMap, i); }
    }
  }

  /** The slots of one bucket b[p-1]..b[p] hold pieces of that bucket, apart from the moving one. */
  lemma BucketContent(was: seq<int>, b: seq<int>, prios: seq<int>, p: int, k: int)
    requires Boundaries(b, |was|) && Settled(was, b, prios, 0, |was|) && InBucket(b, p, k)
    ensures 0 <= k < |was| && prios[was[k]] == p
  {
    BucketIsUnique(b, |was|, p, prios[was[k]], k);
  }

  /** Moving the first piece of bucket p + 1 into the hole keeps what is above the new hole settled. */
  lemma SettleAbove(pieces: seq<int>, was: seq<int>, b: seq<int>, prios: seq<int>, hole: int, p: int,
                    from: int, dest: int, moving: int)
    requires UpdateOf(was, b, prios, from, dest, moving) && |pieces| == |was|
    requires dest <= p < from && 0 <= b[p] < hole < |pieces|
    requires if p + 1 == from then InBucket(b, p + 1, hole) else hole == b[p + 1]
    requires forall k | 0 <= k < hole :: pieces[k] == was[k] != moving
    requires Settled(pieces, Shifted(b, dest, from, 1), prios, hole + 1, |pieces|)
    ensures Settled(pieces[hole := pieces[b[p]]], Shifted(b, dest, from, 1), prios, b[p] + 1, |pieces|)
  {
    forall k | b[p] <= k < hole
      ensures prios[moving := from][was[k]] == p + 1
    {
      assert InBucket(b, p + 1, k);
      BucketContent(was, b, prios[moving := from], p + 1, k);
    }
  }

  lemma SettleBelow(pieces: seq<int>, was: seq<int>, b: seq<int>, prios: seq<int>, hole: int, p: int,
                    from: int, dest: int, moving: int)
    requires UpdateOf(was, b, prios, from, dest, moving) && |pieces| == |was|
    requires from <= p < dest && 0 <= hole < b[p] - 1 < |pieces|
    requires if p == from then InBucket(b, p, hole) else hole == b[p - 1] - 1
    requires forall k | hole < k < |pieces| :: pieces[k] == was[k] != moving
    requires Settled(pieces, Shifted(b, from, dest, -1), prios, 0, hole)
    ensures Settled(pieces[hole := pieces[b[p] - 1]], Shifted(b, from, dest, -1), prios, 0, b[p] - 1)
  {
    forall k | hole < k < b[p]
      ensures prios[moving := from][was[k]] == p
    {
      assert InBucket(b, p, k);
      BucketContent(was, b, prios[moving := from], p, k);
    }
  }

  /** The stale copy in the hole tells whether the next lower boundary sits on the hole. */
  lemma PromoteTarget(pieces: seq<int>, bounds: seq<int>, pieceMap: seq<PiecePos>, hole: int, p: int,
                     was: seq<int>, b: seq<int>, prios: seq<int>, from: int, dest: int, moving: int)
    requires Promoting(pieces, bounds, pieceMap, hole, p + 1, was, b, prios, from, dest, moving) && dest <= p
    ensures 0 <= p < |bounds| && 0 <= bounds[p] < |pieces| && 0 <= hole < |pieces| && bounds[p] <= hole
    ensures pieces[bounds[p]] == pieces[hole] <==> bounds[p] == hole
    ensures bounds[p] != hole ==> 0 <= pieces[bounds[p]] < |prios| && prios[pieces[bounds[p]]] >= 0
  {
    if bounds[p] != hole {
      assert Pointed(pieces, pieceMap, bounds[p]);
    }
  }

  lemma PromoteSkip(pieces: seq<int>, bounds: seq<int>, pieceMap: seq<PiecePos>, hole: int, p: int,
                   was: seq<int>, b: seq<int>, prios: seq<int>, from: int, dest: int, moving: int)
    requires Promoting(pieces, bounds, pieceMap, hole, p + 1, was, b, prios, from, dest, moving) && dest <= p
    requires 0 <= p < |bounds| && bounds[p] == hole
    ensures Promoting(pieces, bounds[p := bounds[p] + 1], pieceMap, hole, p, was, b, prios, from, dest, moving)
  {
    hide Floating, Settled;
  }

  lemma PromoteBounds(bounds: seq<int>, hole: int, p: int, b: seq<int>, from: int, dest: int)
    requires 0 <= dest <= p < from < |b| && bounds == Shifted(b, p + 1, from, 1)
    ensures |bounds| == |b| && bounds[p] == b[p] && bounds[p := bounds[p] + 1] == Shifted(b, p, from, 1)
  {
  }

  lemma PromoteMove(pieces: seq<int>, bounds: seq<int>, pieceMap: seq<PiecePos>, hole: int, p: int,
                   was: seq<int>, b: seq<int>, prios: seq<int>, from: int, dest: int, moving: int, slot: int)
    requires Promoting(pieces, bounds, pieceMap, hole, p + 1, was, b, prios, from, dest, moving) && dest <= p
    requires 0 <= p < |bounds| && slot == bounds[p] && 0 <= slot < |pieces| && 0 <= hole < |pieces| && slot < hole
    requires 0 <= pieces[slot] < |pieceMap|
    ensures Promoting(pieces[hole := pieces[slot]], bounds[p := bounds[p] + 1],
                      pieceMap[pieces[slot] := pieceMap[pieces[slot]].(index := hole)],
                      slot, p, was, b, prios, from, dest, moving)
  {
    PromoteBounds(bounds, hole, p, b, from, dest);
    SettleAbove(pieces, was, b, prios, hole, p, from, dest, moving);
    FillHole(pieces, pieceMap, prios, hole, moving, slot);
    hide Floating, Settled, InBucket, Boundaries, UpdateOf, Shifted;
  }

  /** The stale copy in the hole tells whether the next higher boundary sits on the hole. */
  lemma DemoteTarget(pieces: seq<int>, bounds: seq<int>, pieceMap: seq<PiecePos>, hole: int, p: int,
                     was: seq<int>, b: seq<int>, prios: seq<int>, from: int, dest: int, moving: int)
    requires Demoting(pieces, bounds, pieceMap, hole, p, was, b, prios, from, dest, moving) && p < dest
    ensures 0 <= p < |bounds| && 0 <= bounds[p] - 1 < |pieces| && 0 <= hole < |pieces| && hole <= bounds[p] - 1
    ensures pieces[bounds[p] - 1] == pieces[hole] <==> bounds[p] - 1 == hole
    ensures bounds[p] - 1 != hole ==> 0 <= pieces[bounds[p] - 1] < |prios| && prios[pieces[bounds[p] - 1]] >= 0
  {
    if bounds[p] - 1 != hole {
      assert Pointed(pieces, pieceMap, bounds[p] - 1);
    }
  }

  lemma DemoteSkip(pieces: seq<int>, bounds: seq<int>, pieceMap: seq<PiecePos>, hole: int, p: int,
                   was: seq<int>, b: seq<int>, prios: seq<int>, from: int, dest: int, moving: int)
    requires Demoting(pieces, bounds, pieceMap, hole, p, was, b, prios, from, dest, moving) && p < dest
    requires 0 <= p < |bounds| && bounds[p] - 1 == hole
    ensures Demoting(pieces, bounds[p := bounds[p] - 1], pieceMap, hole, p + 1, was, b, prios, from, dest, moving)
  {
    hide Floating, Settled;
  }

  lemma DemoteBounds(bounds: seq<int>, hole: int, p: int, b: seq<int>, from: int, dest: int)
    requires from <= p < dest < |b| && from >= 0 && bounds == Shifted(b, from, p, -1)
    requires if p == from then InBucket(b, p, hole) else hole == b[p - 1] - 1
    ensures |bounds| == |b| && bounds[p] == b[p] && bounds[p := bounds[p] - 1] == Shifted(b, from, p + 1, -1)
  {
  }

  lemma DemoteMove(pieces: seq<int>, bounds: seq<int>, pieceMap: seq<PiecePos>, hole: int, p: int,
                   was: seq<int>, b: seq<int>, prios: seq<int>, from: int, dest: int, moving: int, slot: int)
    requires Demoting(pieces, bounds, pieceMap, hole, p, was, b, prios, from, dest, moving) && p < dest
    requires 0 <= p < |bounds| && slot == bounds[p] - 1 && 0 <= slot < |pieces| && 0 <= hole < |pieces| && hole < slot
    requires 0 <= pieces[slot] < |pieceMap|
    ensures Demoting(pieces[hole := pieces[slot]], bounds[p := bounds[p] - 1],
                      pieceMap[pieces[slot] := pieceMap[pieces[slot]].(index := hole)],
                      slot, p + 1, was, b, prios, from, dest, moving)
  {
    DemoteBounds(bounds, hole, p, b, from, dest);
    SettleBelow(pieces, was, b, prios, hole, p, from, dest, moving);
    FillHole(pieces, pieceMap, prios, hole, moving, slot);
    hide Floating, Settled, InBucket, Boundaries, UpdateOf, Shifted;
  }

  /** A clean list in which piece `moving` has just changed priority is where both loops start. */
  lemma UpdateStart(pieces: seq<int>, b0: seq<int>, b: seq<int>, pieceMap: seq<PiecePos>, prios: seq<int>,
                    from: int, hole: int, moving: int)
    requires 0 <= moving < |pieceMap| == |prios| && |pieces| < WE_HAVE_INDEX
    requires 0 <= from < |b| && 0 <= prios[moving] < |b|
    requires Clean(pieces, b0, pieceMap, prios[moving := from])
    requires Boundaries(b, |pieces|) && forall q, k :: InBucket(b0, q, k) <==> InBucket(b, q, k)
    requires pieceMap[moving].index == hole
    ensures Promoting(pieces, b, pieceMap, hole, from, pieces, b, prios, from, prios[moving], moving)
              || prios[moving] > from
    ensures Demoting(pieces, b, pieceMap, hole, from, pieces, b, prios, from, prios[moving], moving)
              || prios[moving] < from
  {
    var prios0 := prios[moving := from];
    assert Listed(pieces, pieceMap, moving);
    forall k | 0 <= k < |pieces|
      ensures 0 <= pieces[k] < |prios| && InBucket(b, prios0[pieces[k]], k)
      ensures k != hole ==> pieces[k] != moving
      ensures k > hole && prios[moving] <= from ==> InBucket(Shifted(b, prios[moving], from, 1), prios[pieces[k]], k)
      ensures k < hole && prios[moving] >= from ==> InBucket(Shifted(b, from, prios[moving], -1), prios[pieces[k]], k)
    {
      assert Pointed(pieces, pieceMap, k) && InBucket(b0, prios0[pieces[k]], k);
    }
    forall i | 0 <= i < |pieceMap| && prios[i] >= 0 && i != moving
      ensures Listed(pieces, pieceMap, i) && pieceMap[i].index != hole
    {
      assert prios0[i] == prios[i];
      assert Listed(pieces, pieceMap, i);
    }
    assert b == Shifted(b, from, from, 1) && b == Shifted(b, from, from, -1);
  }

  lemma PromoteEnd(pieces: seq<int>, bounds: seq<int>, pieceMap: seq<PiecePos>, hole: int,
                   was: seq<int>, b: seq<int>, prios: seq<int>, from: int, dest: int, moving: int)
    requires Promoting(pieces, bounds, pieceMap, hole, dest, was, b, prios, from, dest, moving) && dest < from
    ensures 0 <= hole < |pieces| && 0 <= moving < |pieceMap| && InBucket(bounds, dest, hole)
    ensures Clean(pieces[hole := moving], bounds, pieceMap[moving := pieceMap[moving].(index := hole)], prios)
  {
    forall k | 0 <= k < hole
      ensures 0 <= pieces[k] < |prios| && InBucket(bounds, prios[pieces[k]], k)
    {
      assert pieces[k] == was[k] != moving;
      assert InBucket(b, prios[was[k]], k);
    }
    LandInHole(pieces, bounds, pieceMap, prios, hole, moving);
  }

  lemma DemoteEnd(pieces: seq<int>, bounds: seq<int>, pieceMap: seq<PiecePos>, hole: int,
                  was: seq<int>, b: seq<int>, prios: seq<int>, from: int, dest: int, moving: int)
    requires Demoting(pieces, bounds, pieceMap, hole, dest, was, b, prios, from, dest, moving) && from < dest
    ensures 0 <= hole < |pieces| && 0 <= moving < |pieceMap| && InBucket(bounds, dest, hole)
    ensures Clean(pieces[hole := moving], bounds, pieceMap[moving := pieceMap[moving].(index := hole)], prios)
  {
    forall k | hole < k < |pieces|
      ensures 0 <= pieces[k] < |prios| && InBucket(bounds, prios[pieces[k]], k)
    {
      assert pieces[k] == was[k] != moving;
      assert InBucket(b, prios[was[k]], k);
    }
    LandInHole(pieces, bounds, pieceMap, prios, hole, moving);
  }

  /** Exchanging two slots of one bucket, back-pointers included, changes nothing that matters. */
  lemma SwapKeepsClean(pieces: seq<int>, bounds: seq<int>, pieceMap: seq<PiecePos>, prios: seq<int>, p: int, j: int, k: int)
    requires Clean(pieces, bounds, pieceMap, prios)
    requires InBucket(bounds, p, j) && InBucket(bounds, p, k) && j != k
    ensures 0 <= j < |pieces| && 0 <= k < |pieces|
    ensures 0 <= pieces[j] < |pieceMap| && 0 <= pieces[k] < |pieceMap|
    ensures pieces[j] != pieces[k] && pieceMap[pieces[j]].index == j && pieceMap[pieces[k]].index == k
    ensures Clean(pieces[j := pieces[k]][k := pieces[j]], bounds,
                  pieceMap[pieces[j] := pieceMap[pieces[j]].(index := k)][pieces[k] := pieceMap[pieces[k]].(index := j)],
                  prios)
  {
    assert Pointed(pieces, pieceMap, j) && Pointed(pieces, pieceMap, k);
    BucketIsUnique(bounds, |pieces|, p, prios[pieces[j]], j);
    BucketIsUnique(bounds, |pieces|, p, prios[pieces[k]], k);
    var pieces' := pieces[j := pieces[k]][k := pieces[j]];
    var pieceMap' := pieceMap[pieces[j] := pieceMap[pieces[j]].(index := k)][pieces[k] := pieceMap[pieces[k]].(index := j)];
    forall m | 0 <= m < |pieces|
      ensures Pointed(pieces', pieceMap', m) && InBucket(bounds, prios[pieces'[m]], m)
    {
      assert Pointed(pieces, pieceMap, m);
    }
    forall i | 0 <= i < |pieceMap| && prios[i] >= 0
      ensures Listed(pieces', pieceMap', i)
    {
      assert Listed(pieces, pieceMap, i);
    }
  }

  lemma RemoveStart(pieces: seq<int>, b: seq<int>, pieceMap: seq<PiecePos>, prios: seq<int>,
                    first: int, hole: int, gone: int, was: seq<PiecePos>)
    requires 0 <= gone < |prios| == |pieceMap| == |was| && prios[gone] == -1 && |pieces| < WE_HAVE_INDEX
    requires 0 <= first < |b|
    requires was[gone].index == hole && pieceMap == was[gone := pieceMap[gone]]
    requires Clean(pieces, b, was, prios[gone := first])
    ensures 0 <= hole < |pieces| && pieces[hole] == gone
    ensures Removing(pieces, b, pieceMap, hole, first, pieces, b, first, prios, gone)
  {
    assert Listed(pieces, was, gone);
    forall k | 0 <= k < |pieces|
      ensures 0 <= pieces[k] < |prios| && InBucket(b, prios[gone := first][pieces[k]], k)
      ensures k != hole ==> pieces[k] != gone && Pointed(pieces, pieceMap, k)
      ensures k < hole ==> InBucket(Shifted(b, first, |b|, -1), prios[pieces[k]], k)
    {
      assert Pointed(pieces, was, k) && InBucket(b, prios[gone := first][pieces[k]], k);
    }
    forall i | 0 <= i < |pieceMap| && prios[i] >= 0
      ensures Listed(pieces, pieceMap, i) && pieceMap[i].index != hole
    {
      assert prios[gone := first][i] == prios[i];
      assert Listed(pieces, was, i);
    }
    assert b == Shifted(b, first, first, -1);
  }
}
