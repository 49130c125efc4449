/** Write buffers in front of the flash and the accounting of temporary pages
    (ATLWrapper.cpp:1032-1199, 1337-1681), on values. */
module BufferState {
  import opened Layout
  import opened SetSizes
  import opened FlashState

  // One half-page of a write buffer.
  datatype Slot = Slot(req: int, remap: int, data: Data)

  // The address a slot will be copied under once it is in flash.
  function Recorded(s: Slot): int {
    if s.remap != INVALID_LPN then s.remap else s.req
  }

  // The buffer of one bank and write type: `filled` is writebuf_bitmap,
  // `frames` are the host buffers behind the planes, `index` counts them.
  datatype Buffer = Buffer(slots: seq<Slot>, filled: seq<bool>, frames: seq<int>, index: int)

  // `rwStart` is the first temporary address.
  datatype Host = Host(
    flash: Flash,
    buffers: map<(int, WriteType), Buffer>,
    remained: map<Blk, int>,               // block_list[].remained_remap_cnt
    inBuff: map<int, int>,                 // remap_inbuff_cnt
    rwStart: int)

  ghost predicate Temp(h: Host, l: int) {
    h.rwStart <= l < |h.flash.table|
  }

  // ------------------------------------------------ meaning

  datatype Reading = NoData | Some(data: Data)

  ghost predicate Readable(h: Host) {
    && Shaped(h.flash) && Placed(h.flash)
    && forall l :: 0 <= l < |h.flash.table| && h.flash.table[l].Buffered? ==> InBuffer(h, h.flash.table[l])
  }

  ghost predicate InBuffer(h: Host, p: Place)
    requires p.Buffered?
  {
    && (p.bank, p.kind) in h.buffers && 0 <= p.slot < SLOTS
    && |h.buffers[(p.bank, p.kind)].slots| == |h.buffers[(p.bank, p.kind)].filled| == SLOTS
  }

  ghost function SlotAt(h: Host, p: Place): Slot
    requires p.Buffered? && InBuffer(h, p)
  {
    h.buffers[(p.bank, p.kind)].slots[p.slot]
  }

  // What a read of `l` returns.
  ghost function Read(h: Host, l: int): Reading
    requires Readable(h) && 0 <= l < |h.flash.table|
  {
    match h.flash.table[l]
    case Unmapped => NoData
    case Nand(_, _, _) => Some(CellAt(h.flash, h.flash.table[l]).data)
    case Buffered(_, _, _) => Some(SlotAt(h, h.flash.table[l]).data)
  }

  // Every address reads the same but for `l`, which reads `r`.
  ghost predicate Updated(h: Host, h': Host, l: int, r: Reading)
    requires Readable(h) && Readable(h')
  {
    && |h'.flash.table| == |h.flash.table|
    && forall m :: 0 <= m < |h.flash.table| ==> Read(h', m) == if m == l then r else Read(h, m)
  }

  // ------------------------------------------------ the invariants

  ghost predicate BufferShape(b: Buffer) {
    && |b.slots| == |b.filled| == SLOTS && |b.frames| == PLANES && 0 <= b.index <= PLANES
    && (forall i :: 0 <= i < SLOTS && b.filled[i] ==> i / 2 < b.index)
    && (forall p :: 0 <= p < b.index ==> b.filled[p * 2] || b.filled[p * 2 + 1])
  }

  ghost predicate Holds(h: Host, k: (int, WriteType), i: int) {
    k in h.buffers && BufferShape(h.buffers[k]) && 0 <= i < SLOTS && h.buffers[k].filled[i]
  }

  // The addresses that go to the spare areas exist.
  ghost predicate Addressed(h: Host) {
    forall k, i :: Holds(h, k, i) ==>
      h.buffers[k].slots[i].remap == INVALID_LPN || 0 <= h.buffers[k].slots[i].remap < |h.flash.table|
  }

  // A filled slot with an address is that address's place; no slot else is.
  ghost predicate Owned(h: Host) {
    && (forall k, i :: Holds(h, k, i) && h.buffers[k].slots[i].req != INVALID_LPN ==>
          var l := h.buffers[k].slots[i].req;
          0 <= l < |h.flash.table| && h.flash.table[l] == Buffered(k.0, k.1, i))
    && (forall l :: 0 <= l < |h.flash.table| && h.flash.table[l].Buffered? ==>
          && InBuffer(h, h.flash.table[l])
          && h.buffers[(h.flash.table[l].bank, h.flash.table[l].kind)].filled[h.flash.table[l].slot]
          && SlotAt(h, h.flash.table[l]).req == l)
  }

  // Valid counts of the blocks in use.
  ghost predicate Tallied(s: Flash) {
    && (forall b :: b in s.vcount ==> s.vcount[b] == |LiveIn(s.table, b)|
                                      || (s.vcount[b] == VC_MAX && LiveIn(s.table, b) == {}))
    && (forall l :: 0 <= l < |s.table| && s.table[l].Nand? ==> s.table[l].blk in s.vcount)
  }

  // The temporary addresses mapped into block `b`.
  ghost function TempIn(t: seq<Place>, rwStart: int, b: Blk): set<int> {
    set l | 0 <= l < |t| && l >= rwStart && t[l].Nand? && t[l].blk == b
  }

  ghost predicate Remaining(h: Host) {
    && (forall b :: b in h.remained ==> h.remained[b] == |TempIn(h.flash.table, h.rwStart, b)|)
    && (forall l :: Temp(h, l) && 0 <= l && h.flash.table[l].Nand? ==> h.flash.table[l].blk in h.remained)
  }

  // The filled slots that have been remapped, or blanked after a remap.
  ghost function Remapped(h: Host, b: Buffer): set<int> {
    set i | 0 <= i < SLOTS && i < |b.filled| && i < |b.slots| && b.filled[i] && !Temp(h, b.slots[i].req)
  }

  // Temporary addresses live in RW buffers only, and each bank counts the
  // slots remapped there.
  ghost predicate InBuffCounted(h: Host) {
    && (forall k, i :: Holds(h, k, i) && Temp(h, h.buffers[k].slots[i].req) ==> k.1 == RW)
    && (forall n :: (n, RW) in h.buffers ==> n in h.inBuff && h.inBuff[n] == |Remapped(h, h.buffers[(n, RW)])|)
  }

  ghost predicate Inv(h: Host) {
    && 0 <= h.rwStart && |h.flash.table| <= INVALID_LPN
    && Shaped(h.flash) && Placed(h.flash)
    && (forall k :: k in h.buffers ==> BufferShape(h.buffers[k]))
    && Addressed(h) && Owned(h) && Injective(h.flash.table)
    && Tallied(h.flash) && Remaining(h) && InBuffCounted(h)
  }

  lemma InvReadable(h: Host)
    requires Inv(h)
    ensures Readable(h)
  {
  }

  // ------------------------------------------------ letting go of an old page

  // The old page of `l` is invalidated and uncounted, and its remap is no
  // longer awaited if `l` is temporary.
  ghost function Released(h: Host, l: int): Host
    requires 0 <= l < |h.flash.table| && h.flash.table[l].Nand? && h.flash.table[l].blk in h.flash.vcount
    requires Temp(h, l) ==> h.flash.table[l].blk in h.remained
  {
    var p := h.flash.table[l];
    h.(flash := LetGo(h.flash, l, Unmapped),
       remained := if Temp(h, l) then h.remained[p.blk := h.remained[p.blk] - 1] else h.remained)
  }

  lemma LiveDrop(t: seq<Place>, l: int, p: Place, b: Blk)
    requires 0 <= l < |t| && t[l].Nand? && (p.Nand? ==> p.blk != t[l].blk)
    ensures LiveIn(t[l := p], b) ==
      if b == t[l].blk then LiveIn(t, b) - {l} else if p.Nand? && p.blk == b then LiveIn(t, b) + {l} else LiveIn(t, b)
    ensures l in LiveIn(t, t[l].blk)
  {
  }

  lemma OneLess(s: set<int>, l: int)
    requires l in s
    ensures |s - {l}| == |s| - 1
  {
  }

  lemma TempDrop(t: seq<Place>, rwStart: int, l: int, b: Blk)
    requires 0 <= l < |t| && t[l].Nand?
    ensures TempIn(t[l := Unmapped], rwStart, b) == TempIn(t, rwStart, b) - (if b == t[l].blk then {l} else {})
    ensures l >= rwStart ==> l in TempIn(t, rwStart, t[l].blk)
    ensures l < rwStart ==> TempIn(t[l := Unmapped], rwStart, b) == TempIn(t, rwStart, b)
  {
  }

  lemma ReleaseKnown(h: Host, l: int)
    requires Inv(h) && 0 <= l < |h.flash.table| && h.flash.table[l].Nand?
    ensures h.flash.table[l].blk in h.flash.vcount && 0 < h.flash.vcount[h.flash.table[l].blk] <= BLK_LPAGES
    ensures Temp(h, l) ==> h.flash.table[l].blk in h.remained && 0 < h.remained[h.flash.table[l].blk]
  {
    LiveDrop(h.flash.table, l, Unmapped, h.flash.table[l].blk);
    TempDrop(h.flash.table, h.rwStart, l, h.flash.table[l].blk);
    LiveFits(h.flash, h.flash.table[l].blk);
  }

  lemma LiveFits(s: Flash, b: Blk)
    requires Shaped(s) && Placed(s) && Injective(s.table)
    ensures |LiveIn(s.table, b)| <= BLK_LPAGES
  {
    var t := s.table;
    var key := (l: int) => if 0 <= l < |t| && t[l].Nand? then t[l].page * SLOTS + t[l].slot else 0;
    forall e, f | e in LiveIn(t, b) && f in LiveIn(t, b) && key(e) == key(f)
      ensures e == f
    {
      assert InBlock(t[e]) && InBlock(t[f]);
      assert t[e] == t[f];
    }
    InjectionBound(LiveIn(t, b), key, BLK_LPAGES);
  }

  // A superpage not yet programmed leaves room for its eight pages.
  lemma RoomInBlock(s: Flash, b: Blk, p: int)
    requires Shaped(s) && Placed(s) && Injective(s.table) && (b, p) !in s.nand && 0 <= p < PAGES_PER_BLK
    ensures |LiveIn(s.table, b)| <= BLK_LPAGES - SLOTS
  {
    var t := s.table;
    var key := (l: int) =>
      if 0 <= l < |t| && t[l].Nand? then (if t[l].page < p then t[l].page else t[l].page - 1) * SLOTS + t[l].slot
      else 0;
    forall e | e in LiveIn(t, b)
      ensures 0 <= key(e) < BLK_LPAGES - SLOTS
    {
      assert InBlock(t[e]) && t[e].page != p;
    }
    forall e, f | e in LiveIn(t, b) && f in LiveIn(t, b) && key(e) == key(f)
      ensures e == f
    {
      assert InBlock(t[e]) && InBlock(t[f]) && t[e].page != p && t[f].page != p;
      assert t[e] == t[f];
    }
    InjectionBound(LiveIn(t, b), key, BLK_LPAGES - SLOTS);
  }

  lemma ReleaseOk(h: Host, l: int)
    requires Inv(h) && 0 <= l < |h.flash.table| && h.flash.table[l].Nand?
    requires h.flash.table[l].blk in h.flash.vcount && (Temp(h, l) ==> h.flash.table[l].blk in h.remained)
    ensures Inv(Released(h, l)) && Readable(h) && Readable(Released(h, l)) && Updated(h, Released(h, l), l, NoData)
  {
    ReleasePlaced(h, l);
    ReleaseCounts(h, l);
  }

  lemma ReleasePlaced(h: Host, l: int)
    requires Inv(h) && 0 <= l < |h.flash.table| && h.flash.table[l].Nand?
    requires h.flash.table[l].blk in h.flash.vcount && (Temp(h, l) ==> h.flash.table[l].blk in h.remained)
    ensures Shaped(Released(h, l).flash) && Placed(Released(h, l).flash)
    ensures Addressed(Released(h, l)) && Owned(Released(h, l)) && Injective(Released(h, l).flash.table)
    ensures InBuffCounted(Released(h, l))
    ensures Readable(h) && Readable(Released(h, l)) && Updated(h, Released(h, l), l, NoData)
  {
    hide Tallied, Remaining;
    var h' := Released(h, l);
    forall m | 0 <= m < |h.flash.table| && m != l && h.flash.table[m].Nand?
      ensures h.flash.table[m] in h'.flash.bits
    {
      assert h.flash.table[m] != h.flash.table[l];
    }
    forall n | (n, RW) in h'.buffers
      ensures Remapped(h', h'.buffers[(n, RW)]) == Remapped(h, h.buffers[(n, RW)])
    {
    }
  }

  lemma ReleaseCounts(h: Host, l: int)
    requires Inv(h) && 0 <= l < |h.flash.table| && h.flash.table[l].Nand?
    requires h.flash.table[l].blk in h.flash.vcount && (Temp(h, l) ==> h.flash.table[l].blk in h.remained)
    ensures Tallied(Released(h, l).flash) && Remaining(Released(h, l))
  {
    hide Owned, Addressed, InBuffCounted, Injective, BufferShape, LiveIn, TempIn, Placed, Shaped;
    var h' := Released(h, l);
    ReleaseKnown(h, l);
    forall b | b in h'.flash.vcount
      ensures h'.flash.vcount[b] == |LiveIn(h'.flash.table, b)|
        || (h'.flash.vcount[b] == VC_MAX && LiveIn(h'.flash.table, b) == {})
    {
      LiveDrop(h.flash.table, l, Unmapped, b);
      OneLess(LiveIn(h.flash.table, h.flash.table[l].blk), l);
    }
    forall b | b in h'.remained
      ensures h'.remained[b] == |TempIn(h'.flash.table, h.rwStart, b)|
    {
      TempDrop(h.flash.table, h.rwStart, l, b);
      if Temp(h, l) { OneLess(TempIn(h.flash.table, h.rwStart, h.flash.table[l].blk), l); }
    }
  }

  // ------------------------------------------------ entering a slot

  // The buffer after the half at `i` has been entered, in plane `i / 2` of the
  // frames; a new plane is opened if it was not in use.
  ghost function Entered(b: Buffer, i: int, slot: Slot, frame: int): Buffer
    requires BufferShape(b) && 0 <= i < SLOTS && i / 2 <= b.index
  {
    Buffer(b.slots[i := slot], b.filled[i := true], b.frames[i / 2 := frame],
           if i / 2 == b.index then b.index + 1 else b.index)
  }

  ghost function Placing(h: Host, k: (int, WriteType), i: int, slot: Slot, frame: int): Host
    requires k in h.buffers && BufferShape(h.buffers[k]) && 0 <= i < SLOTS && i / 2 <= h.buffers[k].index
    requires 0 <= slot.req < |h.flash.table|
  {
    h.(flash := h.flash.(table := h.flash.table[slot.req := Buffered(k.0, k.1, i)]),
       buffers := h.buffers[k := Entered(h.buffers[k], i, slot, frame)])
  }

  predicate Full(b: Buffer) {
    |b.filled| == SLOTS && forall i :: 0 <= i < SLOTS ==> b.filled[i]
  }

  lemma PlaceOk(h: Host, k: (int, WriteType), i: int, slot: Slot, frame: int)
    requires Inv(h) && k in h.buffers && 0 <= i < SLOTS && i / 2 <= h.buffers[k].index && !h.buffers[k].filled[i]
    requires 0 <= slot.req < |h.flash.table| && h.flash.table[slot.req] == Unmapped
    requires slot.remap == INVALID_LPN || 0 <= slot.remap < |h.flash.table|
    requires Temp(h, slot.req) <==> k.1 == RW
    ensures Inv(Placing(h, k, i, slot, frame)) && Readable(h) && Readable(Placing(h, k, i, slot, frame))
    ensures Updated(h, Placing(h, k, i, slot, frame), slot.req, Some(slot.data))
  {
    hide Owned, Addressed, Injective, Tallied, Remaining, InBuffCounted, BufferShape, Shaped, Placed;
    PlaceOwned(h, k, i, slot, frame);
    PlaceCounts(h, k, i, slot, frame);
  }

  lemma PlaceOwned(h: Host, k: (int, WriteType), i: int, slot: Slot, frame: int)
    requires Inv(h) && k in h.buffers && 0 <= i < SLOTS && i / 2 <= h.buffers[k].index && !h.buffers[k].filled[i]
    requires 0 <= slot.req < |h.flash.table| && h.flash.table[slot.req] == Unmapped
    requires slot.remap == INVALID_LPN || 0 <= slot.remap < |h.flash.table|
    ensures var h' := Placing(h, k, i, slot, frame);
      && Shaped(h'.flash) && Placed(h'.flash) && Addressed(h') && Owned(h') && Injective(h'.flash.table)
      && BufferShape(h'.buffers[k]) && Readable(h') && Readable(h) && Updated(h, h', slot.req, Some(slot.data))
  {
    PlaceSlots(h, k, i, slot, frame);
    PlaceOwners(h, k, i, slot, frame);
    PlaceReads(h, k, i, slot, frame);
  }

  lemma PlaceSlots(h: Host, k: (int, WriteType), i: int, slot: Slot, frame: int)
    requires Inv(h) && k in h.buffers && 0 <= i < SLOTS && i / 2 <= h.buffers[k].index && !h.buffers[k].filled[i]
    requires 0 <= slot.req < |h.flash.table|
    ensures BufferShape(Placing(h, k, i, slot, frame).buffers[k])
    ensures forall k', j :: Holds(Placing(h, k, i, slot, frame), k', j) ==>
      (k' == k && j == i) || (Holds(h, k', j)
        && Placing(h, k, i, slot, frame).buffers[k'].slots[j] == h.buffers[k'].slots[j])
  {
  }

  lemma PlaceOwners(h: Host, k: (int, WriteType), i: int, slot: Slot, frame: int)
    requires Inv(h) && k in h.buffers && 0 <= i < SLOTS && i / 2 <= h.buffers[k].index && !h.buffers[k].filled[i]
    requires 0 <= slot.req < |h.flash.table| && h.flash.table[slot.req] == Unmapped
    requires slot.remap == INVALID_LPN || 0 <= slot.remap < |h.flash.table|
    ensures var h' := Placing(h, k, i, slot, frame);
      Shaped(h'.flash) && Placed(h'.flash) && Addressed(h') && Owned(h') && Injective(h'.flash.table)
  {
    hide Tallied, Remaining, InBuffCounted;
    PlaceSlots(h, k, i, slot, frame);
    var h' := Placing(h, k, i, slot, frame);
    forall l | 0 <= l < |h'.flash.table| && h'.flash.table[l].Buffered? && l != slot.req
      ensures h'.flash.table[l] == h.flash.table[l] && SlotAt(h, h.flash.table[l]).req == l
      ensures h.buffers[(h.flash.table[l].bank, h.flash.table[l].kind)].filled[h.flash.table[l].slot]
    {
    }
  }

  lemma PlaceReads(h: Host, k: (int, WriteType), i: int, slot: Slot, frame: int)
    requires Inv(h) && k in h.buffers && 0 <= i < SLOTS && i / 2 <= h.buffers[k].index && !h.buffers[k].filled[i]
    requires 0 <= slot.req < |h.flash.table| && h.flash.table[slot.req] == Unmapped
    requires Shaped(Placing(h, k, i, slot, frame).flash) && Placed(Placing(h, k, i, slot, frame).flash)
    ensures Readable(h) && Readable(Placing(h, k, i, slot, frame))
    ensures Updated(h, Placing(h, k, i, slot, frame), slot.req, Some(slot.data))
  {
  }

  lemma PlaceCounts(h: Host, k: (int, WriteType), i: int, slot: Slot, frame: int)
    requires Inv(h) && k in h.buffers && 0 <= i < SLOTS && i / 2 <= h.buffers[k].index && !h.buffers[k].filled[i]
    requires 0 <= slot.req < |h.flash.table| && h.flash.table[slot.req] == Unmapped
    requires Temp(h, slot.req) <==> k.1 == RW
    ensures var h' := Placing(h, k, i, slot, frame);
      Tallied(h'.flash) && Remaining(h') && InBuffCounted(h')
  {
    hide Owned, Addressed, Injective;
    var h' := Placing(h, k, i, slot, frame);
    forall b: Blk
      ensures LiveIn(h'.flash.table, b) == LiveIn(h.flash.table, b)
      ensures TempIn(h'.flash.table, h.rwStart, b) == TempIn(h.flash.table, h.rwStart, b)
    {
    }
    forall n | (n, RW) in h'.buffers
      ensures Remapped(h', h'.buffers[(n, RW)]) == Remapped(h, h.buffers[(n, RW)])
    {
    }
  }

  // ------------------------------------------------ overwriting a buffered page

  ghost function Overwritten(h: Host, l: int, d: Data): Host
    requires 0 <= l < |h.flash.table| && h.flash.table[l].Buffered? && InBuffer(h, h.flash.table[l])
  {
    var p := h.flash.table[l];
    var b := h.buffers[(p.bank, p.kind)];
    h.(buffers := h.buffers[(p.bank, p.kind) := b.(slots := b.slots[p.slot := b.slots[p.slot].(data := d)])])
  }

  lemma OverwriteOk(h: Host, l: int, d: Data)
    requires Inv(h) && 0 <= l < |h.flash.table| && h.flash.table[l].Buffered? && InBuffer(h, h.flash.table[l])
    ensures Inv(Overwritten(h, l, d)) && Readable(h) && Readable(Overwritten(h, l, d))
    ensures Updated(h, Overwritten(h, l, d), l, Some(d))
  {
    hide Tallied, Remaining, Injective, Placed, Shaped;
    var h', p := Overwritten(h, l, d), h.flash.table[l];
    forall k, i | Holds(h', k, i)
      ensures Holds(h, k, i) && h'.buffers[k].slots[i].req == h.buffers[k].slots[i].req
      ensures h'.buffers[k].slots[i].remap == h.buffers[k].slots[i].remap
    {
    }
    OverwriteInBuff(h, l, d);
    OverwriteOwned(h, l, d);
    OverwriteReads(h, l, d);
    assert Remaining(h') && Tallied(h'.flash) by { OverwriteCounts(h, l, d); }
  }

  lemma OverwriteCounts(h: Host, l: int, d: Data)
    requires Remaining(h) && 0 <= l < |h.flash.table| && h.flash.table[l].Buffered? && InBuffer(h, h.flash.table[l])
    ensures Remaining(Overwritten(h, l, d))
  {
  }

  lemma OverwriteOwned(h: Host, l: int, d: Data)
    requires Owned(h) && Addressed(h) && 0 <= l < |h.flash.table| && h.flash.table[l].Buffered?
    requires InBuffer(h, h.flash.table[l])
    requires forall k :: k in h.buffers ==> BufferShape(h.buffers[k])
    ensures Owned(Overwritten(h, l, d)) && Addressed(Overwritten(h, l, d))
  {
  }

  lemma OverwriteInBuff(h: Host, l: int, d: Data)
    requires InBuffCounted(h) && 0 <= l < |h.flash.table| && h.flash.table[l].Buffered? && InBuffer(h, h.flash.table[l])
    ensures InBuffCounted(Overwritten(h, l, d))
  {
    var h', p := Overwritten(h, l, d), h.flash.table[l];
    forall k, i | Holds(h', k, i)
      ensures Holds(h, k, i) && h'.buffers[k].slots[i].req == h.buffers[k].slots[i].req
    {
    }
    forall n | (n, RW) in h'.buffers
      ensures Remapped(h', h'.buffers[(n, RW)]) == Remapped(h, h.buffers[(n, RW)])
    {
    }
  }

  lemma OverwriteReads(h: Host, l: int, d: Data)
    requires Readable(h) && Owned(h) && 0 <= l < |h.flash.table| && h.flash.table[l].Buffered?
    requires InBuffer(h, h.flash.table[l])
    ensures Readable(Overwritten(h, l, d)) && Updated(h, Overwritten(h, l, d), l, Some(d))
  {
  }
}
