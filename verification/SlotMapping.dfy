/** The loop that maps a superpage's pages, shared by the writes of host data
    and of collected pages (ATLWrapper.cpp:1598-1613, 2664-2687). */
module SlotMapping {
  import opened Layout
  import opened FlashState
  import opened FlashDevice
  import opened BufferState
  import opened BufferFlush

  lemma OneMore(slots: seq<Slot>, i: nat)
    requires i < |slots|
    ensures |Named(slots[..i + 1])| == |Named(slots[..i])| + (if slots[i].req != INVALID_LPN then 1 else 0)
  {
    assert Named(slots[..i + 1]) == Named(slots[..i]) + (if slots[i].req != INVALID_LPN then {i} else {});
    assert i !in Named(slots[..i]);
  }

  // The mapping of the buffered pages into their superpage, in slot order.
  method MapSlots(dev: Device, slots: seq<Slot>, b: Blk, p: int) returns (count: int, cells: seq<Cell>)
    requires |slots| == SLOTS && DistinctReqs(slots)
    requires |dev.table| <= INVALID_LPN && forall i :: i in Named(slots) ==> 0 <= slots[i].req < |dev.table|
    modifies dev`table, dev`bits
    ensures MovedTo(old(dev.table), dev.table, slots, b, p)
    ensures forall x :: x in dev.bits <==> x in old(dev.bits) || InPage(x, b, p, slots)
    ensures count == |Named(slots)| && cells == Cells(slots)
  {
    count, cells := 0, [];
    for i := 0 to SLOTS
      invariant |dev.table| == |old(dev.table)| && |cells| == i && count == |Named(slots[..i])|
      invariant forall j :: 0 <= j < i ==> cells[j] == Cell(slots[j].data, slots[j].req, slots[j].remap)
      invariant forall j :: 0 <= j < i && slots[j].req != INVALID_LPN ==> dev.table[slots[j].req] == Nand(b, p, j)
      invariant forall l :: 0 <= l < |dev.table| && (forall j :: 0 <= j < i ==> slots[j].req != l) ==>
        dev.table[l] == old(dev.table)[l]
      invariant forall x :: x in dev.bits <==> x in old(dev.bits) || (InPage(x, b, p, slots) && x.slot < i)
    {
      OneMore(slots, i);
      if slots[i].req != INVALID_LPN {
        assert i in Named(slots);
        dev.SetVpn(slots[i].req, Nand(b, p, i));
        dev.ValidateVpn(Nand(b, p, i));
        count := count + 1;
      }
      cells := cells + [Cell(slots[i].data, slots[i].req, slots[i].remap)];
    }
    assert slots[..SLOTS] == slots;
    forall l | 0 <= l < |dev.table| && l !in Reqs(slots)
      ensures dev.table[l] == old(dev.table)[l]
    {
      forall j | 0 <= j < SLOTS
        ensures slots[j].req != l
      {
        assert slots[j].req != INVALID_LPN ==> j in Named(slots);
      }
    }
  }

  // Mapping the slots, programming the superpage, and counting its pages.
  method StoreSlots(dev: Device, slots: seq<Slot>, b: Blk, p: int)
    requires |slots| == SLOTS && DistinctReqs(slots) && 0 <= p < PAGES_PER_BLK && (b, p) !in dev.nand
    requires |dev.table| <= INVALID_LPN && forall i :: i in Named(slots) ==> 0 <= slots[i].req < |dev.table|
    requires b in dev.vcount && 0 <= dev.vcount[b] + |Named(slots)| <= BLK_LPAGES
    modifies dev
    ensures b in old(dev.vcount) && Filled(old(dev.State()), dev.State(), slots, b, p)
  {
    hide MovedTo;
    var count, cells := MapSlots(dev, slots, b, p);
    dev.Program(b, p, cells);
    var v := dev.GetVcount(b);
    dev.SetVcount(b, v + count);
  }
}
