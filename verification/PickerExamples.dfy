/** Pickers on which an operation does not do what one might expect of it. */
module PickerExamples {
  import opened PieceTypes
  import opened Downloads
  import C = Cursors
  import P = PiecePicker

  /** A record that only got another user's priority. */
  lemma FilteredRecord(a: seq<PiecePos>, b: seq<PiecePos>, i: nat)
    requires i < |a| && MovedOnly(a[i := a[i].(piecePriority := 0)], b)
    ensures |b| == |a| && b[i].Filtered()
  {
    assert b[i].SameButIndex(a[i := a[i].(piecePriority := 0)][i]);
  }

  /** The second of two pieces is filtered when the torrent shrinks to one: the picker counts a filtered piece it lacks. */
  method CountLost() returns (p: P.Picker)
    ensures !p.Valid()
  {
    hide P.Picker.BucketsOk, P.Picker.QueueValid, P.Picker.FullValid, P.Picker.Valid, C.CursorsOk;
    p := new P.Picker();
    p.Init(1, 0, 2);
    ghost var a := p.pieceMap;
    var _ := p.SetPiecePriority(1, 0);
    FilteredRecord(a, p.pieceMap, 1);
    p.Init(1, 0, 1);
  }

  /** A second peer queues a block and drops it again: the block no longer shows the first peer. */
  method AbortForgets() returns (p: P.Picker, ghost before: PieceView)
    ensures p.Valid() && p.ViewOf(0) != before && fresh(p)
  {
    hide P.Picker.BucketsOk, P.Picker.QueueValid, P.Picker.FullValid, P.Picker.Valid, C.CursorsOk, FullNow, View, Settle, CountState;
    p := new P.Picker();
    p.Init(2, 0, 1);
    NotThere(p);
    ghost var a := p.pieceMap;
    var ok := p.MarkAsDownloading(0, 0, 1, Slow);
    before := p.ViewOf(0);
    StillMissing(a, p.pieceMap);
    ok := p.MarkAsDownloading(0, 0, 2, Slow);
    p.AbortDownload(0, 0, 2);
  }

  lemma NotThere(p: P.Picker)
    ensures p.downloads == [] ==> p.ViewOf(0) == NotDownloading
  {
  }

  lemma StillMissing(a: seq<PiecePos>, b: seq<PiecePos>)
    requires |a| == |b| == 1 && MovedOnly(a[0 := a[0].(downloading := true, full := b[0].full)], b)
    ensures b[0].Have() == a[0].Have()
  {
    assert b[0].SameButIndex(a[0 := a[0].(downloading := true, full := b[0].full)][0]);
  }
}
