/** The two cursors that delimit the wanted pieces, and the running totals of owned and filtered pieces. */
module Cursors {
  import opened PieceTypes

  /** `cursor` is the first wanted piece and `reverse` one past the last; with none they are n and 0. */
  ghost predicate CursorsOk(cursor: int, reverse: int, pieceMap: seq<PiecePos>) {
    && 0 <= cursor <= |pieceMap| && 0 <= reverse <= |pieceMap|
    && (forall i | 0 <= i < cursor :: !pieceMap[i].Wanted())
    && (forall i | reverse <= i < |pieceMap| :: !pieceMap[i].Wanted())
    && (cursor < |pieceMap| ==> pieceMap[cursor].Wanted())
    && (reverse > 0 ==> pieceMap[reverse - 1].Wanted())
  }

  /** How many pieces we have, how many are filtered and missing, and how many are filtered and had. */
  datatype Tally = Tally(have: int, filtered: int, haveFiltered: int) {
    function Plus(t: Tally): Tally {
      Tally(have + t.have, filtered + t.filtered, haveFiltered + t.haveFiltered)
    }

    function Minus(t: Tally): Tally {
      Tally(have - t.have, filtered - t.filtered, haveFiltered - t.haveFiltered)
    }
  }

  function One(p: PiecePos): Tally {
    Tally(if p.Have() then 1 else 0,
          if p.Filtered() && !p.Have() then 1 else 0,
          if p.Filtered() && p.Have() then 1 else 0)
  }

  ghost function Total(pieceMap: seq<PiecePos>): Tally {
    if |pieceMap| == 0 then Tally(0, 0, 0)
    else Total(pieceMap[..|pieceMap| - 1]).Plus(One(pieceMap[|pieceMap| - 1]))
  }

  lemma {:induction false} TotalUpdate(pieceMap: seq<PiecePos>, i: nat, p: PiecePos)
    requires i < |pieceMap|
    ensures Total(pieceMap[i := p]) == Total(pieceMap).Minus(One(pieceMap[i])).Plus(One(p))
  {
    hide One;
    var n := |pieceMap| - 1;
    var after := pieceMap[i := p];
    assert Total(after) == Total(after[..n]).Plus(One(after[n]));
    assert Total(pieceMap) == Total(pieceMap[..n]).Plus(One(pieceMap[n]));
    if i == n {
      assert after[..n] == pieceMap[..n];
    } else {
      TotalUpdate(pieceMap[..n], i, p);
      assert after[..n] == pieceMap[..n][i := p];
    }
  }

  lemma {:induction false} TotalSame(a: seq<PiecePos>, b: seq<PiecePos>)
    requires |a| == |b| && forall i | 0 <= i < |a| :: One(a[i]) == One(b[i])
    ensures Total(a) == Total(b)
  {
    if |a| > 0 {
      TotalSame(a[..|a| - 1], b[..|b| - 1]);
    }
  }

  lemma TotalLast(pieceMap: seq<PiecePos>)
    requires |pieceMap| > 0
    ensures Total(pieceMap) == Total(pieceMap[..|pieceMap| - 1]).Plus(One(pieceMap[|pieceMap| - 1]))
  {
  }

  lemma {:induction false} HaveCounts(pieceMap: seq<PiecePos>)
    ensures Total(pieceMap).have == |set i | 0 <= i < |pieceMap| && pieceMap[i].Have()|
  {
    if |pieceMap| > 0 {
      var n := |pieceMap| - 1;
      var t := pieceMap[..n];
      HaveCounts(t);
      TotalLast(pieceMap);
      hide Total;
      var before := set i | 0 <= i < |t| && t[i].Have();
      var all := set i | 0 <= i < |pieceMap| && pieceMap[i].Have();
      assert forall i | 0 <= i < n :: t[i] == pieceMap[i];
      assert all == if pieceMap[n].Have() then before + {n} else before;
      assert n !in before;
    }
  }

  lemma {:induction false} FilteredCounts(pieceMap: seq<PiecePos>)
    ensures Total(pieceMap).filtered == |set i | 0 <= i < |pieceMap| && pieceMap[i].Filtered() && !pieceMap[i].Have()|
  {
    if |pieceMap| > 0 {
      var n := |pieceMap| - 1;
      var t := pieceMap[..n];
      FilteredCounts(t);
      TotalLast(pieceMap);
      hide Total;
      var before := set i | 0 <= i < |t| && t[i].Filtered() && !t[i].Have();
      var all := set i | 0 <= i < |pieceMap| && pieceMap[i].Filtered() && !pieceMap[i].Have();
      assert forall i | 0 <= i < n :: t[i] == pieceMap[i];
      assert all == if pieceMap[n].Filtered() && !pieceMap[n].Have() then before + {n} else before;
      assert n !in before;
    }
  }

  lemma {:induction false} HaveFilteredCounts(pieceMap: seq<PiecePos>)
    ensures Total(pieceMap).haveFiltered == |set i | 0 <= i < |pieceMap| && pieceMap[i].Filtered() && pieceMap[i].Have()|
  {
    if |pieceMap| > 0 {
      var n := |pieceMap| - 1;
      var t := pieceMap[..n];
      HaveFilteredCounts(t);
      TotalLast(pieceMap);
      hide Total;
      var before := set i | 0 <= i < |t| && t[i].Filtered() && t[i].Have();
      var all := set i | 0 <= i < |pieceMap| && pieceMap[i].Filtered() && pieceMap[i].Have();
      assert forall i | 0 <= i < n :: t[i] == pieceMap[i];
      assert all == if pieceMap[n].Filtered() && pieceMap[n].Have() then before + {n} else before;
      assert n !in before;
    }
  }

  /** The totals are sizes: what the counters hold is a count of pieces. */
  lemma TotalCounts(pieceMap: seq<PiecePos>)
    ensures Total(pieceMap).have == |set i | 0 <= i < |pieceMap| && pieceMap[i].Have()|
    ensures Total(pieceMap).filtered == |set i | 0 <= i < |pieceMap| && pieceMap[i].Filtered() && !pieceMap[i].Have()|
    ensures Total(pieceMap).haveFiltered == |set i | 0 <= i < |pieceMap| && pieceMap[i].Filtered() && pieceMap[i].Have()|
  {
    HaveCounts(pieceMap);
    FilteredCounts(pieceMap);
    HaveFilteredCounts(pieceMap);
  }

  /** Pieces that stay wanted or unwanted, owned or not, keep cursors and totals. */
  lemma SameKind(a: seq<PiecePos>, b: seq<PiecePos>, cursor: int, reverse: int)
    requires |a| == |b|
    requires forall i | 0 <= i < |a| :: a[i].Have() == b[i].Have() && a[i].Filtered() == b[i].Filtered()
    ensures CursorsOk(cursor, reverse, a) ==> CursorsOk(cursor, reverse, b)
    ensures Total(a) == Total(b)
  {
    TotalSame(a, b);
  }

  /** Cursors only look at which pieces are wanted. */
  lemma SameUnwanted(a: seq<PiecePos>, b: seq<PiecePos>, cursor: int, reverse: int)
    requires |a| == |b| && forall i | 0 <= i < |a| :: a[i].Wanted() == b[i].Wanted()
    requires CursorsOk(cursor, reverse, a)
    ensures CursorsOk(cursor, reverse, b)
  {
  }

  /** The number of filtered pieces, had or not, among the first n. */
  ghost function FilteredBefore(pieceMap: seq<PiecePos>, n: nat): (c: nat)
    requires n <= |pieceMap|
  {
    if n == 0 then 0 else FilteredBefore(pieceMap, n - 1) + if pieceMap[n - 1].Filtered() then 1 else 0
  }

  lemma {:induction false} FilteredTotal(pieceMap: seq<PiecePos>, n: nat)
    requires n <= |pieceMap|
    ensures FilteredBefore(pieceMap, n) == Total(pieceMap[..n]).filtered + Total(pieceMap[..n]).haveFiltered
  {
    if n > 0 {
      FilteredTotal(pieceMap, n - 1);
      var t := pieceMap[..n];
      TotalLast(t);
      hide Total;
      assert t[..n - 1] == pieceMap[..n - 1] && t[n - 1] == pieceMap[n - 1];
    }
  }

  lemma {:induction false} FilteredTail(pieceMap: seq<PiecePos>, m: nat, n: nat)
    requires m <= n <= |pieceMap|
    ensures FilteredBefore(pieceMap, m) <= FilteredBefore(pieceMap, n)
    ensures FilteredBefore(pieceMap, m) == FilteredBefore(pieceMap, n) <==> forall i | m <= i < n :: !pieceMap[i].Filtered()
  {
    if m < n {
      FilteredTail(pieceMap, m, n - 1);
    }
  }

  lemma {:induction false} SameFiltered(a: seq<PiecePos>, b: seq<PiecePos>, n: nat)
    requires n <= |a| && n <= |b| && forall i | 0 <= i < n :: a[i].Filtered() == b[i].Filtered()
    ensures FilteredBefore(a, n) == FilteredBefore(b, n)
  {
    if n > 0 {
      SameFiltered(a, b, n - 1);
    }
  }

  lemma {:induction false} NoneHad(pieceMap: seq<PiecePos>)
    requires forall i | 0 <= i < |pieceMap| :: !pieceMap[i].Have()
    ensures Total(pieceMap).have == 0 && Total(pieceMap).haveFiltered == 0
  {
    if |pieceMap| > 0 {
      NoneHad(pieceMap[..|pieceMap| - 1]);
    }
  }

  /** No piece from n on is filtered. */
  ghost predicate NoneFilteredFrom(pieceMap: seq<PiecePos>, n: nat) {
    forall i | n <= i < |pieceMap| :: !pieceMap[i].Filtered()
  }

  /** Totals after a reset that keeps priorities of the pieces in both maps and filters no new one. */
  lemma ResetTotals(a: seq<PiecePos>, b: seq<PiecePos>)
    requires forall i | 0 <= i < |b| :: !b[i].Have()
    requires forall i | 0 <= i < |b| :: b[i].Filtered() == (i < |a| && a[i].Filtered())
    ensures Total(b).have == 0 && Total(b).haveFiltered == 0
    ensures (Total(b).filtered == Total(a).filtered + Total(a).haveFiltered)
              <==> NoneFilteredFrom(a, |b|)
  {
    NoneHad(b);
    FilteredTotal(a, |a|);
    FilteredTotal(b, |b|);
    assert a[..|a|] == a && b[..|b|] == b;
    var m := if |a| <= |b| then |a| else |b|;
    FilteredTail(a, m, |a|);
    FilteredTail(b, m, |b|);
    SameFiltered(a, b, m);
  }
}
