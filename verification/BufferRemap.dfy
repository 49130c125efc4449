/** Remapping a temporary page to its home address without copying it
    (ATLWrapper.cpp:1032-1199), on values. */
module BufferRemap {
  import opened Layout
  import opened FlashState
  import opened BufferState

  // ------------------------------------------------ the home address's old page

  // A buffered old page loses its address: the slot will be written unmapped.
  ghost function Blanked(h: Host, o: int): Host
    requires Owned(h) && 0 <= o < |h.flash.table| && h.flash.table[o].Buffered?
  {
    var p := h.flash.table[o];
    h.(flash := h.flash.(table := h.flash.table[o := Unmapped]),
       buffers := WithReq(h.buffers, p, INVALID_LPN))
  }

  ghost function WithReq(bs: map<(int, WriteType), Buffer>, p: Place, req: int): map<(int, WriteType), Buffer>
    requires p.Buffered? && (p.bank, p.kind) in bs && 0 <= p.slot < |bs[(p.bank, p.kind)].slots|
  {
    var b := bs[(p.bank, p.kind)];
    bs[(p.bank, p.kind) := b.(slots := b.slots[p.slot := b.slots[p.slot].(req := req)])]
  }

  // The old page of `o`, wherever it is, is given up.
  ghost function GivenUp(h: Host, o: int): Host
    requires Inv(h) && 0 <= o < h.rwStart && o < |h.flash.table|
  {
    match h.flash.table[o]
    case Unmapped => h
    case Nand(_, _, _) => ReleaseKnown(h, o); Released(h, o)
    case Buffered(_, _, _) => Blanked(h, o)
  }

  lemma BlankedOk(h: Host, o: int)
    requires Inv(h) && 0 <= o < h.rwStart && o < |h.flash.table| && h.flash.table[o].Buffered?
    ensures Inv(Blanked(h, o)) && Readable(h) && Readable(Blanked(h, o)) && Updated(h, Blanked(h, o), o, NoData)
  {
    BlankedOwned(h, o);
    BlankedCounts(h, o);
  }

  lemma BlankedOwned(h: Host, o: int)
    requires Inv(h) && 0 <= o < h.rwStart && o < |h.flash.table| && h.flash.table[o].Buffered?
    ensures var h' := Blanked(h, o);
      && Shaped(h'.flash) && Placed(h'.flash) && Addressed(h') && Owned(h') && Injective(h'.flash.table)
      && (forall k :: k in h'.buffers ==> BufferShape(h'.buffers[k]))
      && Readable(h) && Readable(h') && Updated(h, h', o, NoData)
  {
    hide Tallied, Remaining, InBuffCounted;
    var h', p := Blanked(h, o), h.flash.table[o];
    forall k, i | Holds(h', k, i)
      ensures Holds(h, k, i)
      ensures h'.buffers[k].slots[i] == h.buffers[k].slots[i] || (k == (p.bank, p.kind) && i == p.slot)
    {
    }
  }

  lemma BlankedCounts(h: Host, o: int)
    requires Inv(h) && 0 <= o < h.rwStart && o < |h.flash.table| && h.flash.table[o].Buffered?
    ensures Tallied(Blanked(h, o).flash) && Remaining(Blanked(h, o)) && InBuffCounted(Blanked(h, o))
  {
    hide Addressed, Injective;
    var h', p := Blanked(h, o), h.flash.table[o];
    forall b: Blk
      ensures LiveIn(h'.flash.table, b) == LiveIn(h.flash.table, b)
      ensures TempIn(h'.flash.table, h.rwStart, b) == TempIn(h.flash.table, h.rwStart, b)
    {
    }
    forall k, i | Holds(h', k, i)
      ensures Holds(h, k, i)
      ensures h'.buffers[k].slots[i] == h.buffers[k].slots[i] || (k == (p.bank, p.kind) && i == p.slot)
    {
    }
    forall n | (n, RW) in h'.buffers
      ensures Remapped(h', h'.buffers[(n, RW)]) == Remapped(h, h.buffers[(n, RW)])
    {
      assert SlotAt(h, p).req == o;
    }
  }

  lemma GivenUpOk(h: Host, o: int)
    requires Inv(h) && 0 <= o < h.rwStart && o < |h.flash.table|
    ensures Inv(GivenUp(h, o)) && Readable(h) && Readable(GivenUp(h, o)) && Updated(h, GivenUp(h, o), o, NoData)
    ensures GivenUp(h, o).flash.table == h.flash.table[o := Unmapped]
  {
    InvReadable(h);
    match h.flash.table[o] {
      case Unmapped => assert h.flash.table == h.flash.table[o := Unmapped];
      case Nand(_, _, _) =>
        ReleaseKnown(h, o);
        ReleaseOk(h, o);
      case Buffered(_, _, _) => BlankedOk(h, o);
    }
  }

  // ------------------------------------------------ handing the page over

  // `o` takes over the page of `t`; the count of outstanding remaps follows.
  ghost function Handed(h: Host, t: int, o: int): Host
    requires Inv(h) && Temp(h, t) && 0 <= t && 0 <= o < h.rwStart && o < |h.flash.table|
    requires h.flash.table[t] != Unmapped
    requires h.flash.table[t].Nand? ==> h.flash.table[t].blk in h.remained
    requires h.flash.table[t].Buffered? ==> h.flash.table[t].bank in h.inBuff
  {
    var p := h.flash.table[t];
    var f := h.flash.(table := h.flash.table[t := Unmapped][o := p]);
    if p.Nand? then h.(flash := f, remained := h.remained[p.blk := h.remained[p.blk] - 1])
    else h.(flash := f, buffers := WithReq(h.buffers, p, o), inBuff := h.inBuff[p.bank := h.inBuff[p.bank] + 1])
  }

  lemma HandKnown(h: Host, t: int)
    requires Inv(h) && Temp(h, t) && 0 <= t
    ensures h.flash.table[t].Nand? ==> h.flash.table[t].blk in h.remained && 0 < h.remained[h.flash.table[t].blk]
    ensures h.flash.table[t].Buffered? ==> h.flash.table[t].bank in h.inBuff && h.flash.table[t].kind == RW
  {
    if h.flash.table[t].Nand? {
      TempDrop(h.flash.table, h.rwStart, t, h.flash.table[t].blk);
    } else if h.flash.table[t].Buffered? {
      var p := h.flash.table[t];
      assert SlotAt(h, p).req == t && Holds(h, (p.bank, p.kind), p.slot);
    }
  }

  lemma HandNand(h: Host, t: int, o: int)
    requires Inv(h) && Temp(h, t) && 0 <= t && 0 <= o < h.rwStart && o < |h.flash.table|
    requires h.flash.table[t].Nand? && h.flash.table[o] == Unmapped && h.flash.table[t].blk in h.remained
    ensures var h' := Handed(h, t, o); Inv(h') && Readable(h) && Readable(h') && HandedOver(h, h', t, o)
  {
    HandNandPlaced(h, t, o);
    HandNandCounts(h, t, o);
  }

  // `o` reads what `t` read, `t` reads nothing, all else is as before.
  ghost predicate HandedOver(h: Host, h': Host, t: int, o: int)
    requires Readable(h) && Readable(h') && 0 <= t < |h.flash.table|
  {
    && |h'.flash.table| == |h.flash.table|
    && forall m :: 0 <= m < |h.flash.table| ==>
         Read(h', m) == if m == o then Read(h, t) else if m == t then NoData else Read(h, m)
  }

  lemma HandNandPlaced(h: Host, t: int, o: int)
    requires Inv(h) && Temp(h, t) && 0 <= t && 0 <= o < h.rwStart && o < |h.flash.table|
    requires h.flash.table[t].Nand? && h.flash.table[o] == Unmapped && h.flash.table[t].blk in h.remained
    ensures var h' := Handed(h, t, o);
      && Shaped(h'.flash) && Placed(h'.flash) && Addressed(h') && Owned(h') && Injective(h'.flash.table)
        && InBuffCounted(h')
      && Readable(h) && Readable(h') && HandedOver(h, h', t, o)
  {
    hide Tallied, Remaining;
    var h' := Handed(h, t, o);
    forall n | (n, RW) in h'.buffers
      ensures Remapped(h', h'.buffers[(n, RW)]) == Remapped(h, h.buffers[(n, RW)])
    {
    }
  }

  lemma HandNandCounts(h: Host, t: int, o: int)
    requires Inv(h) && Temp(h, t) && 0 <= t && 0 <= o < h.rwStart && o < |h.flash.table|
    requires h.flash.table[t].Nand? && h.flash.table[o] == Unmapped && h.flash.table[t].blk in h.remained
    ensures Tallied(Handed(h, t, o).flash) && Remaining(Handed(h, t, o))
  {
    hide Owned, Addressed, Injective, InBuffCounted, LiveIn, TempIn, Placed, Shaped;
    var h', tb, b := Handed(h, t, o), h.flash.table, h.flash.table[t].blk;
    HandKnown(h, t);
    forall c | c in h'.flash.vcount || c in h'.remained
      ensures |LiveIn(h'.flash.table, c)| == |LiveIn(tb, c)|
      ensures (LiveIn(tb, c) == {} ==> LiveIn(h'.flash.table, c) == {})
      ensures |TempIn(h'.flash.table, h.rwStart, c)| == |TempIn(tb, h.rwStart, c)| - (if c == b then 1 else 0)
    {
      PlaceSwap(tb, h.rwStart, t, o, c);
    }
  }

  // Handing over the place moves it from `t` to `o` within its block.
  lemma PlaceSwap(tb: seq<Place>, rwStart: int, t: int, o: int, c: Blk)
    requires 0 <= o < rwStart <= t < |tb| && tb[t].Nand? && tb[o] == Unmapped
    ensures |LiveIn(tb[t := Unmapped][o := tb[t]], c)| == |LiveIn(tb, c)|
    ensures LiveIn(tb, c) == {} ==> LiveIn(tb[t := Unmapped][o := tb[t]], c) == {}
    ensures |TempIn(tb[t := Unmapped][o := tb[t]], rwStart, c)|
      == |TempIn(tb, rwStart, c)| - (if c == tb[t].blk then 1 else 0)
  {
    LiveSwap(tb, t, o, c);
    TempSwap(tb, rwStart, t, o, c);
  }

  lemma LiveSwap(tb: seq<Place>, t: int, o: int, c: Blk)
    requires 0 <= o < t < |tb| && tb[t].Nand? && !tb[o].Nand?
    ensures |LiveIn(tb[t := Unmapped][o := tb[t]], c)| == |LiveIn(tb, c)|
    ensures LiveIn(tb, c) == {} ==> LiveIn(tb[t := Unmapped][o := tb[t]], c) == {}
  {
    var tb' := tb[t := Unmapped][o := tb[t]];
    if c == tb[t].blk {
      var rest := LiveIn(tb, c) - {t};
      assert t in LiveIn(tb, c) && o !in rest;
      forall l: int
        ensures l in LiveIn(tb', c) <==> l in rest || l == o
      {
      }
      assert LiveIn(tb', c) == rest + {o};
    } else {
      assert LiveIn(tb', c) == LiveIn(tb, c);
    }
  }

  lemma TempSwap(tb: seq<Place>, rwStart: int, t: int, o: int, c: Blk)
    requires 0 <= o < rwStart <= t < |tb| && tb[t].Nand? && tb[o] == Unmapped
    ensures |TempIn(tb[t := Unmapped][o := tb[t]], rwStart, c)|
      == |TempIn(tb, rwStart, c)| - (if c == tb[t].blk then 1 else 0)
  {
    var tb' := tb[t := Unmapped][o := tb[t]];
    if c == tb[t].blk {
      assert TempIn(tb', rwStart, c) == TempIn(tb, rwStart, c) - {t};
      assert t in TempIn(tb, rwStart, c);
    } else {
      assert TempIn(tb', rwStart, c) == TempIn(tb, rwStart, c);
    }
  }

  lemma HandBuffered(h: Host, t: int, o: int)
    requires Inv(h) && Temp(h, t) && 0 <= t && 0 <= o < h.rwStart && o < |h.flash.table|
    requires h.flash.table[t].Buffered? && h.flash.table[o] == Unmapped && h.flash.table[t].bank in h.inBuff
    ensures var h' := Handed(h, t, o); Inv(h') && Readable(h) && Readable(h') && HandedOver(h, h', t, o)
  {
    HandBufferedOwned(h, t, o);
    HandBufferedCounts(h, t, o);
  }

  // The slot behind `t`, and what the handover does to the slots.
  lemma HandSlots(h: Host, t: int, o: int)
    requires Inv(h) && Temp(h, t) && 0 <= t && 0 <= o < h.rwStart && o < |h.flash.table|
    requires h.flash.table[t].Buffered? && h.flash.table[o] == Unmapped && h.flash.table[t].bank in h.inBuff
    ensures var p := h.flash.table[t]; Holds(h, (p.bank, p.kind), p.slot) && SlotAt(h, p).req == t && p.kind == RW
    ensures forall k, i :: Holds(Handed(h, t, o), k, i) ==>
      && Holds(h, k, i)
      && Handed(h, t, o).buffers[k].slots[i] ==
           if Buffered(k.0, k.1, i) == h.flash.table[t] then h.buffers[k].slots[i].(req := o) else h.buffers[k].slots[i]
    ensures forall k :: k in Handed(h, t, o).buffers ==> BufferShape(Handed(h, t, o).buffers[k])
  {
  }

  lemma HandBufferedOwned(h: Host, t: int, o: int)
    requires Inv(h) && Temp(h, t) && 0 <= t && 0 <= o < h.rwStart && o < |h.flash.table|
    requires h.flash.table[t].Buffered? && h.flash.table[o] == Unmapped && h.flash.table[t].bank in h.inBuff
    ensures var h' := Handed(h, t, o);
      && Shaped(h'.flash) && Placed(h'.flash) && Addressed(h') && Owned(h') && Injective(h'.flash.table)
      && (forall k :: k in h'.buffers ==> BufferShape(h'.buffers[k]))
      && Readable(h) && Readable(h') && HandedOver(h, h', t, o)
  {
    hide Tallied, Remaining, InBuffCounted, BufferShape;
    HandSlots(h, t, o);
    HandOwned(h, t, o);
    HandReads(h, t, o);
  }

  lemma HandOwned(h: Host, t: int, o: int)
    requires Inv(h) && Temp(h, t) && 0 <= t && 0 <= o < h.rwStart && o < |h.flash.table|
    requires h.flash.table[t].Buffered? && h.flash.table[o] == Unmapped && h.flash.table[t].bank in h.inBuff
    requires forall k :: k in Handed(h, t, o).buffers ==> BufferShape(Handed(h, t, o).buffers[k])
    ensures Addressed(Handed(h, t, o)) && Owned(Handed(h, t, o))
  {
    hide Tallied, Remaining, InBuffCounted, Injective, Placed, Shaped;
    var h', p := Handed(h, t, o), h.flash.table[t];
    HandSlots(h, t, o);
    forall k, i | Holds(h', k, i) && h'.buffers[k].slots[i].req != INVALID_LPN
      ensures var l := h'.buffers[k].slots[i].req; 0 <= l < |h'.flash.table|
                                                   && h'.flash.table[l] == Buffered(k.0, k.1, i)
    {
      assert Holds(h, k, i);
    }
    forall l | 0 <= l < |h'.flash.table| && h'.flash.table[l].Buffered?
      ensures InBuffer(h', h'.flash.table[l]) && SlotAt(h', h'.flash.table[l]).req == l
      ensures h'.buffers[(h'.flash.table[l].bank, h'.flash.table[l].kind)].filled[h'.flash.table[l].slot]
    {
      if l != o { assert SlotAt(h, h.flash.table[l]).req == l; }
    }
  }

  lemma HandReads(h: Host, t: int, o: int)
    requires Inv(h) && Temp(h, t) && 0 <= t && 0 <= o < h.rwStart && o < |h.flash.table|
    requires h.flash.table[t].Buffered? && h.flash.table[o] == Unmapped && h.flash.table[t].bank in h.inBuff
    requires Owned(Handed(h, t, o))
    ensures var h' := Handed(h, t, o); Readable(h) && Readable(h') && HandedOver(h, h', t, o)
  {
  }

  lemma HandBufferedCounts(h: Host, t: int, o: int)
    requires Inv(h) && Temp(h, t) && 0 <= t && 0 <= o < h.rwStart && o < |h.flash.table|
    requires h.flash.table[t].Buffered? && h.flash.table[o] == Unmapped && h.flash.table[t].bank in h.inBuff
    ensures Tallied(Handed(h, t, o).flash) && Remaining(Handed(h, t, o)) && InBuffCounted(Handed(h, t, o))
  {
    hide Addressed, Injective, Owned, BufferShape, InBuffCounted;
    var h' := Handed(h, t, o);
    forall b: Blk
      ensures LiveIn(h'.flash.table, b) == LiveIn(h.flash.table, b)
      ensures TempIn(h'.flash.table, h.rwStart, b) == TempIn(h.flash.table, h.rwStart, b)
    {
    }
    HandInBuff(h, t, o);
  }

  lemma HandInBuff(h: Host, t: int, o: int)
    requires Inv(h) && Temp(h, t) && 0 <= t && 0 <= o < h.rwStart && o < |h.flash.table|
    requires h.flash.table[t].Buffered? && h.flash.table[o] == Unmapped && h.flash.table[t].bank in h.inBuff
    ensures InBuffCounted(Handed(h, t, o))
  {
    hide Addressed, Injective, Owned, Tallied, Remaining, Placed, Shaped;
    var h', p := Handed(h, t, o), h.flash.table[t];
    HandSlots(h, t, o);
    forall n | (n, RW) in h'.buffers && n != p.bank
      ensures Remapped(h', h'.buffers[(n, RW)]) == Remapped(h, h.buffers[(n, RW)])
    {
    }
    var b, b' := h.buffers[(p.bank, RW)], h'.buffers[(p.bank, RW)];
    forall i: int
      ensures i in Remapped(h', b') <==> i in Remapped(h, b) || i == p.slot
    {
    }
    assert p.slot !in Remapped(h, b);
    assert Remapped(h', b') == Remapped(h, b) + {p.slot};
  }

  // ------------------------------------------------ one pair, and a whole entry

  ghost function RemapPair(h: Host, t: int, o: int): Host
    requires Inv(h) && Temp(h, t) && 0 <= t && 0 <= o < h.rwStart && o < |h.flash.table| && h.flash.table[t] != Unmapped
  {
    GivenUpOk(h, o);
    HandKnown(GivenUp(h, o), t);
    Handed(GivenUp(h, o), t, o)
  }

  lemma RemapPairOk(h: Host, t: int, o: int)
    requires Inv(h) && Temp(h, t) && 0 <= t && 0 <= o < h.rwStart && o < |h.flash.table| && h.flash.table[t] != Unmapped
    ensures Inv(RemapPair(h, t, o)) && Readable(h) && Readable(RemapPair(h, t, o))
    ensures HandedOver(h, RemapPair(h, t, o), t, o)
    ensures RemapPair(h, t, o).flash.table == h.flash.table[t := Unmapped][o := h.flash.table[t]]
  {
    hide Inv, Owned, Readable, Read;
    var g := GivenUp(h, o);
    GivenUpOk(h, o);
    HandKnown(g, t);
    if g.flash.table[t].Nand? { HandNand(g, t, o); } else { HandBuffered(g, t, o); }
  }

  // ------------------------------------------------ the meaning of an entry

  // The pairs of the other core, and blank ones, are skipped.
  predicate Mine(pair: (int, int), core: int) {
    pair.0 % CORES == core && pair.1 != VC_MAX
  }

  // All readings of a state as one sequence.
  ghost function Reads(h: Host): seq<Reading>
    requires Readable(h)
  {
    seq(|h.flash.table|, l requires 0 <= l < |h.flash.table| => Read(h, l))
  }

  ghost predicate PairsIn(pairs: seq<(int, int)>, core: int, size: int) {
    forall i :: 0 <= i < |pairs| && Mine(pairs[i], core) ==>
      0 <= pairs[i].0 / CORES < size && 0 <= pairs[i].1 / CORES < size
  }

  // The readings after the pairs, in order: each home address takes what its
  // temporary address reads, which then reads nothing.
  ghost function Composed(r: seq<Reading>, pairs: seq<(int, int)>, core: int): (r': seq<Reading>)
    requires PairsIn(pairs, core, |r|)
    ensures |r'| == |r|
  {
    if pairs == [] then r
    else
      var before := Composed(r, pairs[..|pairs| - 1], core);
      var (t, o) := pairs[|pairs| - 1];
      if !Mine((t, o), core) then before
      else before[o / CORES := before[t / CORES]][t / CORES := NoData]
  }

  // The temporary addresses of an entry are mapped and distinct, the others
  // are home addresses.
  ghost predicate EntryOk(h: Host, pairs: seq<(int, int)>, core: int) {
    && (forall i :: 0 <= i < |pairs| && Mine(pairs[i], core) ==>
          && Temp(h, pairs[i].0 / CORES) && 0 <= pairs[i].0 / CORES
          && 0 <= pairs[i].1 / CORES < h.rwStart && pairs[i].1 / CORES < |h.flash.table|)
    && (forall i, j :: 0 <= i < j < |pairs| && Mine(pairs[i], core) && Mine(pairs[j], core) ==>
          pairs[i].0 / CORES != pairs[j].0 / CORES)
  }

  ghost predicate MappedFrom(h: Host, pairs: seq<(int, int)>, core: int, n: int) {
    forall i :: 0 <= n <= i < |pairs| && Mine(pairs[i], core) ==>
      0 <= pairs[i].0 / CORES < |h.flash.table| && h.flash.table[pairs[i].0 / CORES] != Unmapped
  }

  lemma OneStep(h: Host, h': Host, r: seq<Reading>, pairs: seq<(int, int)>, core: int, n: int)
    requires 0 <= n < |pairs| && EntryOk(h, pairs, core) && MappedFrom(h, pairs, core, n)
    requires Readable(h) && Readable(h') && PairsIn(pairs[..n], core, |r|) && Reads(h) == Composed(r, pairs[..n], core)
    requires if Mine(pairs[n], core)
             then HandedOver(h, h', pairs[n].0 / CORES, pairs[n].1 / CORES) && h'.rwStart == h.rwStart
               && h'.flash.table
                    == h.flash.table[pairs[n].0 / CORES := Unmapped]
                                    [pairs[n].1 / CORES := h.flash.table[pairs[n].0 / CORES]]
             else h' == h
    ensures PairsIn(pairs[..n + 1], core, |r|) && Reads(h') == Composed(r, pairs[..n + 1], core)
    ensures EntryOk(h', pairs, core) && MappedFrom(h', pairs, core, n + 1)
  {
    var ps := pairs[..n + 1];
    assert |r| == |Reads(h)| == |h.flash.table|;
    assert ps[..|ps| - 1] == pairs[..n] && ps[|ps| - 1] == pairs[n];
    assert PairsIn(ps, core, |r|);
    if Mine(pairs[n], core) {
      var before := Reads(h);
      var t, o := pairs[n].0 / CORES, pairs[n].1 / CORES;
      assert Reads(h') == before[o := before[t]][t := NoData];
    }
  }
}
