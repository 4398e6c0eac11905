/** A packet that goes to the slot of another one when sequence numbers wrap around. */
module PacketExamples {
  import opened Common
  import opened PacketBuffer

  /** A buffer with nothing but a packet in the last numbers of a round. */
  lemma OnePacket(p: PacketBuffer<int>)
    requires p.Valid() && p.live == map[0xfff8 := 1]
    requires 0 < p.storage.Length < 2 * (p.high - p.low) || p.storage.Length == 16
    ensures p.storage.Length == 16 && p.low == 0xfff8
    ensures p.SlotsFor(0x10008) == 16 && p.Near(0x10008) && p.Misplaced(0x10008) && Alias(0x10008, p.low, 16) == 0xfff8
  {
    assert p.low in p.live && p.high - 1 in p.live;
    CircleIsPower();
  }

  lemma NoPacket(p: PacketBuffer<int>, n: int)
    requires p.Valid() && p.live == map[]
    ensures p.Near(n) && !p.Misplaced(n)
  {
  }

  lemma FirstAgain(p: PacketBuffer<int>)
    requires p.Readable() && p.live == map[0xfff8 := 2]
    ensures p.Near(0xfff8) && p.Found(0xfff8) == 0xfff8
  {
    assert p.low in p.live;
  }

  /** Packets 0xfff8 and 0x10008 in a buffer of sixteen slots: the second goes where the first is looked for. */
  method Overwritten() returns (lost: Option<int>, found: Option<int>)
    ensures lost == Some(1) && found == Some(2)
  {
    hide PacketBuffer.Window, PacketBuffer.Ends, PacketBuffer.Valid, PacketBuffer.Readable, PacketBuffer.Misplaced, PowerOfTwo, Slot, Alias;
    var p := new PacketBuffer<int>();
    NoPacket(p, 0xfff8);
    ghost var at;
    lost, at := p.Insert(0xfff8, Some(1), 0xfff8);
    OnePacket(p);
    lost, at := p.Insert(8, Some(2), 0x10008);
    assert p.live == map[0xfff8 := 2];
    FirstAgain(p);
    found := p.At(0xfff8, 0xfff8);
  }
}
