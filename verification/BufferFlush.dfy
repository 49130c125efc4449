/** Writing a full buffer to flash (ATLWrapper.cpp:1588-1676), on values. */
module BufferFlush {
  import opened Layout
  import opened SetSizes
  import opened FlashState
  import opened BufferState

  // ------------------------------------------------ the superpage

  ghost function Cells(slots: seq<Slot>): seq<Cell> {
    seq(|slots|, i requires 0 <= i < |slots| => Cell(slots[i].data, slots[i].req, slots[i].remap))
  }

  // The slots with an address, and their addresses.
  function Named(slots: seq<Slot>): set<int> {
    set i | 0 <= i < |slots| && slots[i].req != INVALID_LPN
  }

  ghost function Reqs(slots: seq<Slot>): set<int> {
    set i | i in Named(slots) :: slots[i].req
  }

  ghost function TempSlots(slots: seq<Slot>, rwStart: int): set<int> {
    set i | 0 <= i < |slots| && slots[i].req != INVALID_LPN && slots[i].req >= rwStart
  }

  ghost function TempReqs(slots: seq<Slot>, rwStart: int): set<int> {
    set i | i in TempSlots(slots, rwStart) :: slots[i].req
  }

  predicate DistinctReqs(slots: seq<Slot>) {
    forall i, j :: 0 <= i < j < |slots| && slots[i].req != INVALID_LPN ==> slots[i].req != slots[j].req
  }

  // The addresses in the slots now point into superpage `p` of `b`.
  ghost predicate MovedTo(t0: seq<Place>, t: seq<Place>, slots: seq<Slot>, b: Blk, p: int) {
    && |t| == |t0|
    && (forall i :: 0 <= i < |slots| && slots[i].req != INVALID_LPN ==>
          0 <= slots[i].req < |t| && t[slots[i].req] == Nand(b, p, i))
    && (forall l :: 0 <= l < |t| && l !in Reqs(slots) ==> t[l] == t0[l])
  }

  ghost predicate InPage(x: Place, b: Blk, p: int, slots: seq<Slot>) {
    x.Nand? && x.blk == b && x.page == p && x.slot in Named(slots)
  }

  // The slots have gone to superpage `p` of `b`.
  ghost predicate Filled(s: Flash, s': Flash, slots: seq<Slot>, b: Blk, p: int)
    requires b in s.vcount
  {
    && MovedTo(s.table, s'.table, slots, b, p)
    && s'.nand == s.nand[(b, p) := Cells(slots)]
    && (forall x :: x in s'.bits <==> x in s.bits || InPage(x, b, p, slots))
    && s'.vcount == s.vcount[b := s.vcount[b] + |Named(slots)|]
  }

  // The buffer after the write: the slots keep their stale contents.
  ghost function Emptied(b: Buffer): Buffer {
    Buffer(b.slots, seq(SLOTS, _ => false), seq(PLANES, _ => 0), 0)
  }

  ghost predicate Flushed(h: Host, h': Host, k: (int, WriteType), b: Blk, p: int)
    requires k in h.buffers && b in h.flash.vcount
    requires k.1 == RW ==> b in h.remained && k.0 in h.inBuff
  {
    && Filled(h.flash, h'.flash, h.buffers[k].slots, b, p)
    && h'.buffers == h.buffers[k := Emptied(h.buffers[k])]
    && h'.rwStart == h.rwStart
    && (if k.1 == RW then
          && h'.remained == h.remained[b := h.remained[b] + SLOTS - h.inBuff[k.0]]
          && h'.inBuff == h.inBuff[k.0 := 0]
        else h'.remained == h.remained && h'.inBuff == h.inBuff)
  }

  // What the page needs to be like.
  ghost predicate Target(h: Host, k: (int, WriteType), b: Blk, p: int) {
    && k in h.buffers && Full(h.buffers[k]) && (b, p) !in h.flash.nand && 0 <= p < PAGES_PER_BLK
    && b in h.flash.vcount && h.flash.vcount[b] != VC_MAX
    && (k.1 == RW ==> b in h.remained && k.0 in h.inBuff)
  }

  lemma SlotsOwned(h: Host, k: (int, WriteType))
    requires Inv(h) && k in h.buffers && Full(h.buffers[k])
    ensures |h.buffers[k].slots| == SLOTS && DistinctReqs(h.buffers[k].slots)
    ensures forall i :: i in Named(h.buffers[k].slots) ==>
      var l := h.buffers[k].slots[i].req;
      0 <= l < |h.flash.table| && h.flash.table[l] == Buffered(k.0, k.1, i)
  {
  }

  lemma FlushOk(h: Host, h': Host, k: (int, WriteType), b: Blk, p: int)
    requires Inv(h) && Target(h, k, b, p) && Flushed(h, h', k, b, p)
    ensures Inv(h') && Readable(h) && Readable(h') && |h'.flash.table| == |h.flash.table|
    ensures forall l :: 0 <= l < |h.flash.table| ==> Read(h', l) == Read(h, l)
  {
    SlotsOwned(h, k);
    FlushPlaced(h, h', k, b, p);
    FlushBuffers(h, h', k, b, p);
    FlushCounts(h, h', k, b, p);
    FlushRemaining(h, h', k, b, p);
    FlushReads(h, h', k, b, p);
  }

  lemma FlushPlaced(h: Host, h': Host, k: (int, WriteType), b: Blk, p: int)
    requires Inv(h) && Target(h, k, b, p) && Flushed(h, h', k, b, p) && |h.buffers[k].slots| == SLOTS
    requires DistinctReqs(h.buffers[k].slots)
    ensures Shaped(h'.flash) && Placed(h'.flash) && Injective(h'.flash.table)
  {
    hide Owned, Tallied, Remaining, InBuffCounted;
    var slots, t, t' := h.buffers[k].slots, h.flash.table, h'.flash.table;
    forall i | 0 <= i < SLOTS
      ensures Effective(Cells(slots)[i]) == INVALID_LPN || 0 <= Effective(Cells(slots)[i]) < |t'|
    {
      assert Holds(h, k, i);
    }
    forall l | 0 <= l < |t'| && t'[l].Nand?
      ensures InBlock(t'[l]) && t'[l] in h'.flash.bits && (t'[l].blk, t'[l].page) in h'.flash.nand
      ensures l in Reqs(slots) || t'[l] == t[l]
    {
      if l in Reqs(slots) {
        var i :| i in Named(slots) && slots[i].req == l;
        assert t'[slots[i].req] == Nand(b, p, i);
      }
    }
    forall l, m | 0 <= l < m < |t'| && t'[l].Nand?
      ensures t'[l] != t'[m]
    {
      PlaceOfReq(h, h', k, b, p, l);
      PlaceOfReq(h, h', k, b, p, m);
    }
  }

  // An address flushed here sits at its slot, another one is not in this page.
  lemma PlaceOfReq(h: Host, h': Host, k: (int, WriteType), b: Blk, p: int, l: int)
    requires Shaped(h.flash) && Placed(h.flash) && Target(h, k, b, p) && Flushed(h, h', k, b, p)
    requires 0 <= l < |h'.flash.table| && |h.buffers[k].slots| == SLOTS
    ensures l in Reqs(h.buffers[k].slots) ==>
      exists i :: i in Named(h.buffers[k].slots) && h.buffers[k].slots[i].req == l && h'.flash.table[l] == Nand(b, p, i)
    ensures l !in Reqs(h.buffers[k].slots) ==>
      h'.flash.table[l] == h.flash.table[l] && !(h'.flash.table[l].Nand? && h'.flash.table[l].blk == b
        && h'.flash.table[l].page == p)
  {
  }

  lemma FlushBuffers(h: Host, h': Host, k: (int, WriteType), b: Blk, p: int)
    requires Inv(h) && Target(h, k, b, p) && Flushed(h, h', k, b, p) && |h.buffers[k].slots| == SLOTS
    ensures Addressed(h') && Owned(h') && InBuffCounted(h')
    ensures forall x :: x in h'.buffers ==> BufferShape(h'.buffers[x])
  {
    hide Tallied, Remaining, Shaped, Placed, Injective;
    forall x, i | Holds(h', x, i)
      ensures x != k && Holds(h, x, i) && h'.buffers[x] == h.buffers[x]
    {
    }
    FlushOwned(h, h', k, b, p);
    FlushInBuff(h, h', k, b, p);
  }

  lemma FlushOwned(h: Host, h': Host, k: (int, WriteType), b: Blk, p: int)
    requires Owned(h) && Target(h, k, b, p) && Flushed(h, h', k, b, p) && |h.buffers[k].slots| == SLOTS
    requires forall x, i :: Holds(h', x, i) ==> x != k && Holds(h, x, i) && h'.buffers[x] == h.buffers[x]
    requires |h.flash.table| <= INVALID_LPN && forall x :: x in h.buffers ==> BufferShape(h.buffers[x])
    ensures Owned(h')
  {
  }

  lemma FlushInBuff(h: Host, h': Host, k: (int, WriteType), b: Blk, p: int)
    requires InBuffCounted(h) && Target(h, k, b, p) && Flushed(h, h', k, b, p)
    requires forall x, i :: Holds(h', x, i) ==> x != k && Holds(h, x, i) && h'.buffers[x] == h.buffers[x]
    ensures InBuffCounted(h')
  {
    forall n | (n, RW) in h'.buffers
      ensures n in h'.inBuff && h'.inBuff[n] == |Remapped(h', h'.buffers[(n, RW)])|
    {
      if (n, RW) == k {
        assert Remapped(h', h'.buffers[k]) == {};
      } else {
        assert h'.inBuff[n] == h.inBuff[n];
        assert Remapped(h', h'.buffers[(n, RW)]) == Remapped(h, h.buffers[(n, RW)]);
      }
    }
  }

  // The flushed addresses are counted in their new block, nothing else changes.
  lemma LiveAfter(t: seq<Place>, t': seq<Place>, slots: seq<Slot>, b: Blk, p: int, c: Blk)
    requires MovedTo(t, t', slots, b, p)
    requires forall i :: i in Named(slots) ==> 0 <= slots[i].req < |t| && t[slots[i].req].Buffered?
    ensures LiveIn(t', c) == if c == b then LiveIn(t, b) + Reqs(slots) else LiveIn(t, c)
    ensures LiveIn(t, c) !! Reqs(slots)
  {
  }

  lemma TempAfter(t: seq<Place>, t': seq<Place>, slots: seq<Slot>, b: Blk, p: int, rwStart: int, c: Blk)
    requires MovedTo(t, t', slots, b, p)
    requires forall i :: i in Named(slots) ==> 0 <= slots[i].req < |t| && t[slots[i].req].Buffered?
    ensures TempIn(t', rwStart, c) == if c == b then TempIn(t, rwStart, b) + TempReqs(slots, rwStart)
      else TempIn(t, rwStart, c)
    ensures TempIn(t, rwStart, c) !! TempReqs(slots, rwStart)
  {
  }

  lemma ReqSizes(slots: seq<Slot>, rwStart: int)
    requires DistinctReqs(slots)
    ensures |Reqs(slots)| == |Named(slots)| && |TempReqs(slots, rwStart)| == |TempSlots(slots, rwStart)|
  {
    var f := (i: int) => if 0 <= i < |slots| then slots[i].req else INVALID_LPN;
    forall i, j | i in Named(slots) && j in Named(slots) && f(i) == f(j)
      ensures i == j
    {
      assert slots[i].req == slots[j].req;
    }
    ImageSize(Named(slots), f);
    assert Image(Named(slots), f) == Reqs(slots);
    ImageSize(TempSlots(slots, rwStart), f);
    assert Image(TempSlots(slots, rwStart), f) == TempReqs(slots, rwStart);
  }

  lemma FlushCounts(h: Host, h': Host, k: (int, WriteType), b: Blk, p: int)
    requires Inv(h) && Target(h, k, b, p) && Flushed(h, h', k, b, p) && |h.buffers[k].slots| == SLOTS
    requires DistinctReqs(h.buffers[k].slots)
    ensures Tallied(h'.flash)
  {
    hide Remaining, InBuffCounted, Injective, Placed, Shaped, Owned, Addressed, BufferShape, Reqs, MovedTo;
    var slots, t, t' := h.buffers[k].slots, h.flash.table, h'.flash.table;
    SlotsOwned(h, k);
    ReqSizes(slots, h.rwStart);
    forall c | c in h'.flash.vcount
      ensures h'.flash.vcount[c] == |LiveIn(t', c)| || (h'.flash.vcount[c] == VC_MAX && LiveIn(t', c) == {})
    {
      LiveAfter(t, t', slots, b, p, c);
    }
    forall l | 0 <= l < |t'| && t'[l].Nand?
      ensures t'[l].blk in h'.flash.vcount
    {
      LiveAfter(t, t', slots, b, p, t'[l].blk);
      assert l in LiveIn(t', t'[l].blk);
    }
  }

  // Of the eight slots, those not remapped in the buffer are temporary.
  lemma TempsAndRemapped(h: Host, k: (int, WriteType))
    requires Inv(h) && k in h.buffers && Full(h.buffers[k])
    ensures |TempSlots(h.buffers[k].slots, h.rwStart)| + |Remapped(h, h.buffers[k])| == SLOTS
    ensures k.1 != RW ==> TempSlots(h.buffers[k].slots, h.rwStart) == {}
  {
    hide Remaining, Injective, Placed, Shaped, Tallied;
    SlotsOwned(h, k);
    var a, r := TempSlots(h.buffers[k].slots, h.rwStart), Remapped(h, h.buffers[k]);
    forall i | 0 <= i < SLOTS
      ensures i in a <==> i !in r
    {
      assert h.buffers[k].filled[i];
    }
    assert a !! r;
    CountBelow(a + r, SLOTS);
    forall i | i in a
      ensures k.1 == RW
    {
      assert Holds(h, k, i);
    }
  }

  lemma FlushRemaining(h: Host, h': Host, k: (int, WriteType), b: Blk, p: int)
    requires Inv(h) && Target(h, k, b, p) && Flushed(h, h', k, b, p) && |h.buffers[k].slots| == SLOTS
    requires DistinctReqs(h.buffers[k].slots)
    ensures Remaining(h')
  {
    hide Tallied, Injective, Placed, Shaped, Owned, Addressed, InBuffCounted, MovedTo, Flushed, Inv, Target;
    forall c | c in h'.remained
      ensures h'.remained[c] == |TempIn(h'.flash.table, h.rwStart, c)|
    {
      FlushedTemps(h, h', k, b, p, c);
    }
    FlushedKnown(h, h', k, b, p);
  }

  // A block of the flushed state waits for as many remaps as it holds
  // temporary pages.
  lemma FlushedTemps(h: Host, h': Host, k: (int, WriteType), b: Blk, p: int, c: Blk)
    requires Inv(h) && Target(h, k, b, p) && Flushed(h, h', k, b, p) && |h.buffers[k].slots| == SLOTS
    requires DistinctReqs(h.buffers[k].slots)
    requires c in h'.remained
    ensures h'.rwStart == h.rwStart && h'.remained[c] == |TempIn(h'.flash.table, h.rwStart, c)|
  {
    hide Tallied, Injective, Placed, Shaped, Owned, Addressed, InBuffCounted, MovedTo;
    var slots, t, t' := h.buffers[k].slots, h.flash.table, h'.flash.table;
    SlotsOwned(h, k);
    ReqSizes(slots, h.rwStart);
    TempsAndRemapped(h, k);
    BankCounts(h, k);
    TempAfter(t, t', slots, b, p, h.rwStart, c);
  }

  lemma FlushedKnown(h: Host, h': Host, k: (int, WriteType), b: Blk, p: int)
    requires Inv(h) && Target(h, k, b, p) && Flushed(h, h', k, b, p) && |h.buffers[k].slots| == SLOTS
    requires DistinctReqs(h.buffers[k].slots)
    ensures h'.rwStart == h.rwStart
    ensures forall l :: Temp(h', l) && 0 <= l && h'.flash.table[l].Nand? ==> h'.flash.table[l].blk in h'.remained
  {
    hide Tallied, Injective, Placed, Shaped, Owned, Addressed, InBuffCounted, MovedTo;
    var slots, t, t' := h.buffers[k].slots, h.flash.table, h'.flash.table;
    SlotsOwned(h, k);
    ReqSizes(slots, h.rwStart);
    TempsAndRemapped(h, k);
    BankCounts(h, k);
    forall l | Temp(h', l) && 0 <= l && t'[l].Nand?
      ensures t'[l].blk in h'.remained
    {
      TempAfter(t, t', slots, b, p, h.rwStart, t'[l].blk);
      assert l in TempIn(t', h.rwStart, t'[l].blk);
      assert l in TempIn(t, h.rwStart, t'[l].blk) || (k.1 == RW && t'[l].blk == b);
    }
  }

  lemma BankCounts(h: Host, k: (int, WriteType))
    requires InBuffCounted(h) && k in h.buffers
    ensures k.1 == RW ==> k.0 in h.inBuff && h.inBuff[k.0] == |Remapped(h, h.buffers[k])|
  {
    var (n, kind) := k;
    if kind == RW { assert (n, RW) in h.buffers; }
  }

  lemma FlushReads(h: Host, h': Host, k: (int, WriteType), b: Blk, p: int)
    requires Inv(h) && Target(h, k, b, p) && Flushed(h, h', k, b, p) && |h.buffers[k].slots| == SLOTS
    requires Shaped(h'.flash) && Placed(h'.flash) && Owned(h')
    ensures Readable(h) && Readable(h') && forall l :: 0 <= l < |h.flash.table| ==> Read(h', l) == Read(h, l)
  {
  }
}
