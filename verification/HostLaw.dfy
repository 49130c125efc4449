/** What holds of buffers, tables, spare areas and block lists between any two
    host operations, and why each of them keeps it (ATLWrapper.cpp:1032-1199,
    1337-1796). */
module HostLaw {
  import opened Layout
  import opened SetSizes
  import opened FlashState
  import opened GcModel
  import opened GcSpace
  import opened BufferState
  import opened BufferFlush
  import opened BufferRemap
  import opened BlockPartition
  import opened BankLaw
  import opened BankSteps
  import opened BlockLists

  // Pages of home addresses carry their address in the spare area or will.
  ghost predicate Spared(h: Host)
    requires Shaped(h.flash) && Placed(h.flash)
  {
    && (forall l :: 0 <= l < |h.flash.table| && l < h.rwStart && h.flash.table[l].Nand? ==>
          Effective(CellAt(h.flash, h.flash.table[l])) == l)
    && (forall k, i :: Holds(h, k, i) && h.buffers[k].slots[i].req != INVALID_LPN
                       && h.buffers[k].slots[i].req < h.rwStart ==>
          Recorded(h.buffers[k].slots[i]) == h.buffers[k].slots[i].req)
  }

  ghost predicate BanksOk(s: Flash, ls: Lists) {
    ls.banks.Keys == ls.cursors.Keys && forall n :: n in ls.banks ==> BankOk(s, n, ls.banks[n], ls.cursors[n])
  }

  // Remaps are counted for every block and bank.
  ghost predicate Known(h: Host, ls: Lists) {
    && (forall n, x :: n in ls.banks && x in All(ls.banks[n]) ==> Blk(n, x) in h.remained)
    && (forall n :: n in ls.banks ==> n in h.inBuff)
  }

  ghost predicate Law(h: Host, ls: Lists) {
    Inv(h) && Sorted(h, ls) && Spared(h) && BanksOk(h.flash, ls) && Known(h, ls)
  }

  // ------------------------------------------------ letting go of a page

  lemma ReleaseGentle(h: Host, l: int, n: int, b: Bank)
    requires Inv(h) && 0 <= l < |h.flash.table| && h.flash.table[l].Nand?
    requires h.flash.table[l].blk in h.flash.vcount && (Temp(h, l) ==> h.flash.table[l].blk in h.remained)
    ensures Gentle(h.flash, Released(h, l).flash, n, b, {})
  {
    ReleaseKnown(h, l);
    hide Tidy, FreeBlk, Legible, Blank, LiveIn, Gentle;
    LetGoGentle(h.flash, l, Unmapped, n, b);
  }

  lemma ReleaseLaw(h: Host, l: int, ls: Lists)
    requires Law(h, ls) && 0 <= l < |h.flash.table| && h.flash.table[l].Nand?
    requires h.flash.table[l].blk in h.flash.vcount && (Temp(h, l) ==> h.flash.table[l].blk in h.remained)
    ensures var h' := Released(h, l);
      Inv(h') && Spared(h') && BanksOk(h'.flash, ls) && Known(h', ls)
  {
    hide Inv, BankOk, Gentle, Sorted;
    ReleaseOk(h, l);
    ReleaseSpared(h, l);
    forall n | n in ls.banks
      ensures BankOk(Released(h, l).flash, n, ls.banks[n], ls.cursors[n])
    {
      assert BankOk(h.flash, n, ls.banks[n], ls.cursors[n]);
      ReleaseGentle(h, l, n, ls.banks[n]);
      GentleBank(h.flash, Released(h, l).flash, n, ls.banks[n], ls.cursors[n]);
    }
  }

  lemma ReleaseSpared(h: Host, l: int)
    requires Inv(h) && Spared(h) && 0 <= l < |h.flash.table| && h.flash.table[l].Nand?
    requires h.flash.table[l].blk in h.flash.vcount && (Temp(h, l) ==> h.flash.table[l].blk in h.remained)
    ensures var h' := Released(h, l); Shaped(h'.flash) && Placed(h'.flash) && Spared(h')
  {
    ReleaseOk(h, l);
  }

  // ------------------------------------------------ pages entering and leaving a buffer

  // Entries outside flash change, the flash does not.
  ghost predicate BufferedOnly(s: Flash, s': Flash) {
    && s'.nand == s.nand && s'.bits == s.bits && s'.vcount == s.vcount && |s'.table| == |s.table|
    && forall l :: 0 <= l < |s.table| ==> s'.table[l] == s.table[l] || (!s.table[l].Nand? && !s'.table[l].Nand?)
  }

  lemma BufferedGentle(s: Flash, s': Flash, n: int, b: Bank)
    requires Shaped(s) && Placed(s) && BufferedOnly(s, s')
    ensures Gentle(s, s', n, b, {})
  {
    forall y
      ensures LiveIn(s'.table, y) == LiveIn(s.table, y)
    {
    }
  }

  lemma BufferedBanks(s: Flash, s': Flash, ls: Lists)
    requires Shaped(s) && Placed(s) && BufferedOnly(s, s') && BanksOk(s, ls)
    ensures BanksOk(s', ls)
  {
    hide BankOk, Gentle, BufferedOnly;
    forall n | n in ls.banks
      ensures BankOk(s', n, ls.banks[n], ls.cursors[n])
    {
      assert BankOk(s, n, ls.banks[n], ls.cursors[n]);
      BufferedGentle(s, s', n, ls.banks[n]);
      GentleBank(s, s', n, ls.banks[n], ls.cursors[n]);
    }
  }

  lemma PlaceLaw(h: Host, k: (int, WriteType), i: int, slot: Slot, frame: int, ls: Lists)
    requires Inv(h) && Spared(h) && BanksOk(h.flash, ls) && Known(h, ls)
    requires k in h.buffers && 0 <= i < SLOTS && i / 2 <= h.buffers[k].index && !h.buffers[k].filled[i]
    requires 0 <= slot.req < |h.flash.table| && h.flash.table[slot.req] == Unmapped
    requires Shaped(Placing(h, k, i, slot, frame).flash) && Placed(Placing(h, k, i, slot, frame).flash)
    requires slot.req < h.rwStart ==> Recorded(slot) == slot.req
    ensures var h' := Placing(h, k, i, slot, frame);
      Spared(h') && BanksOk(h'.flash, ls) && Known(h', ls)
  {
    hide BankOk, Owned, Addressed, Tallied, Remaining, InBuffCounted;
    PlaceSlots(h, k, i, slot, frame);
    BufferedBanks(h.flash, Placing(h, k, i, slot, frame).flash, ls);
  }

  lemma OverwriteLaw(h: Host, l: int, d: Data, ls: Lists)
    requires Inv(h) && Spared(h) && BanksOk(h.flash, ls) && Known(h, ls)
    requires 0 <= l < |h.flash.table| && h.flash.table[l].Buffered? && InBuffer(h, h.flash.table[l])
    ensures var h' := Overwritten(h, l, d);
      Spared(h') && BanksOk(h'.flash, ls) && Known(h', ls)
  {
    hide BankOk, Owned, Addressed, Tallied, Remaining, InBuffCounted;
    var h' := Overwritten(h, l, d);
    forall k, i | Holds(h', k, i)
      ensures Holds(h, k, i) && h'.buffers[k].slots[i].req == h.buffers[k].slots[i].req
      ensures h'.buffers[k].slots[i].remap == h.buffers[k].slots[i].remap
    {
    }
  }

  // ------------------------------------------------ remaps

  // The pair names the address that came with the temporary page.
  ghost predicate Agreed(h: Host, t: int, o: int)
    requires Inv(h) && 0 <= t < |h.flash.table|
  {
    match h.flash.table[t]
    case Unmapped => true
    case Nand(_, _, _) => Effective(CellAt(h.flash, h.flash.table[t])) == o
    case Buffered(_, _, _) => InvReadable(h); Recorded(SlotAt(h, h.flash.table[t])) == o
  }

  lemma GivenUpLaw(h: Host, t: int, o: int, ls: Lists)
    requires Inv(h) && Sorted(h, ls) && Spared(h) && BanksOk(h.flash, ls) && Known(h, ls)
    requires 0 <= o < h.rwStart <= t < |h.flash.table| && o < |h.flash.table|
    ensures var g := GivenUp(h, o);
      && Inv(g) && Spared(g) && BanksOk(g.flash, ls) && Known(g, ls) && (Agreed(h, t, o) ==> Agreed(g, t, o))
      && TempsListed(g, ls) && g.flash.table == h.flash.table[o := Unmapped] && g.rwStart == h.rwStart
  {
    GivenUpOk(h, o);
    match h.flash.table[o] {
      case Unmapped => assert h.flash.table == h.flash.table[o := Unmapped];
      case Nand(_, _, _) =>
        ReleaseKnown(h, o);
        ReleaseLaw(h, o, ls);
      case Buffered(_, _, _) =>
        BlankedLaw(h, t, o, ls);
    }
  }

  lemma BlankedLaw(h: Host, t: int, o: int, ls: Lists)
    requires Inv(h) && Spared(h) && BanksOk(h.flash, ls) && Known(h, ls)
    requires 0 <= o < h.rwStart <= t < |h.flash.table| && o < |h.flash.table| && h.flash.table[o].Buffered?
    requires Inv(Blanked(h, o))
    ensures var g := Blanked(h, o);
      Spared(g) && BanksOk(g.flash, ls) && Known(g, ls) && (Agreed(h, t, o) ==> Agreed(g, t, o))
  {
    hide BankOk, Tallied, Remaining, InBuffCounted, Addressed;
    var g, p := Blanked(h, o), h.flash.table[o];
    BufferedBanks(h.flash, g.flash, ls);
    forall k, i | Holds(g, k, i)
      ensures Holds(h, k, i)
      ensures g.buffers[k].slots[i] == h.buffers[k].slots[i] || g.buffers[k].slots[i].req == INVALID_LPN
    {
    }
  }

  lemma HandLaw(h: Host, t: int, o: int, ls: Lists)
    requires Inv(h) && TempsListed(h, ls) && Spared(h) && BanksOk(h.flash, ls) && Known(h, ls)
    requires 0 <= o < h.rwStart <= t < |h.flash.table| && o < |h.flash.table|
    requires h.flash.table[t] != Unmapped && h.flash.table[o] == Unmapped && Agreed(h, t, o)
    requires h.flash.table[t].Nand? ==> h.flash.table[t].blk in h.remained
    requires h.flash.table[t].Buffered? ==> h.flash.table[t].bank in h.inBuff
    requires Inv(Handed(h, t, o))
    ensures var h' := Handed(h, t, o);
      Spared(h') && BanksOk(h'.flash, ls) && Known(h', ls)
  {
    if h.flash.table[t].Nand? { HandNandLaw(h, t, o, ls); } else { HandBufferedLaw(h, t, o, ls); }
  }

  lemma HandNandLaw(h: Host, t: int, o: int, ls: Lists)
    requires Inv(h) && TempsListed(h, ls) && Spared(h) && BanksOk(h.flash, ls) && Known(h, ls)
    requires 0 <= o < h.rwStart <= t < |h.flash.table| && o < |h.flash.table|
    requires h.flash.table[t].Nand? && h.flash.table[o] == Unmapped && Agreed(h, t, o)
    requires h.flash.table[t].blk in h.remained
    requires Inv(Handed(h, t, o))
    ensures var h' := Handed(h, t, o);
      Spared(h') && BanksOk(h'.flash, ls) && Known(h', ls)
  {
    hide BankOk, Tallied, Remaining, InBuffCounted, Addressed, Owned;
    var h' := Handed(h, t, o);
    forall n | n in ls.banks
      ensures BankOk(h'.flash, n, ls.banks[n], ls.cursors[n])
    {
      assert BankOk(h.flash, n, ls.banks[n], ls.cursors[n]) && Temp(h, t);
      OwnApart(h.flash, n, ls);
      HandGentle(h.flash, t, o, n, ls.banks[n]);
      GentleBank(h.flash, h'.flash, n, ls.banks[n], ls.cursors[n]);
    }
  }

  lemma OwnApart(s: Flash, n: int, ls: Lists)
    requires BanksOk(s, ls) && n in ls.banks
    ensures forall y :: y in ls.banks[n].rw ==> y !in ls.banks[n].data
  {
    assert BankOk(s, n, ls.banks[n], ls.cursors[n]);
    ApartFacts(ls.banks[n]);
  }

  lemma HandBufferedLaw(h: Host, t: int, o: int, ls: Lists)
    requires Inv(h) && Spared(h) && BanksOk(h.flash, ls) && Known(h, ls)
    requires 0 <= o < h.rwStart <= t < |h.flash.table| && o < |h.flash.table|
    requires h.flash.table[t].Buffered? && h.flash.table[o] == Unmapped && Agreed(h, t, o)
    requires h.flash.table[t].bank in h.inBuff
    requires Inv(Handed(h, t, o))
    ensures var h' := Handed(h, t, o);
      Spared(h') && BanksOk(h'.flash, ls) && Known(h', ls)
  {
    hide BankOk, Tallied, Remaining, InBuffCounted, Addressed;
    BufferedBanks(h.flash, Handed(h, t, o).flash, ls);
    HandSlots(h, t, o);
  }

  lemma PairLaw(h: Host, t: int, o: int, ls: Lists)
    requires Law(h, ls) && Temp(h, t) && 0 <= t && 0 <= o < h.rwStart && o < |h.flash.table|
    requires h.flash.table[t] != Unmapped
    requires Agreed(h, t, o)
    ensures var h' := RemapPair(h, t, o);
      Inv(h') && Spared(h') && BanksOk(h'.flash, ls) && Known(h', ls)
  {
    hide Inv, BanksOk, Spared, Known, Sorted, Agreed;
    GivenUpLaw(h, t, o, ls);
    RemapPairOk(h, t, o);
    HandKnown(GivenUp(h, o), t);
    HandLaw(GivenUp(h, o), t, o, ls);
  }

  // ------------------------------------------------ leaving the log list

  lemma MoveLaw(h: Host, ls: Lists, x: Blk)
    requires Inv(h) && Spared(h) && BanksOk(h.flash, ls) && Known(h, ls)
    requires x.bank in ls.banks && x.no in ls.banks[x.bank].rw && !Ongoing(ls.cursors[x.bank].rw, x.no)
    requires TempIn(h.flash.table, h.rwStart, x) == {}
    ensures BanksOk(h.flash, Moved(ls, x)) && Known(h, Moved(ls, x))
  {
    hide Inv, Spared, BankOk;
    var ls', n := Moved(ls, x), x.bank;
    assert BankOk(h.flash, n, ls.banks[n], ls.cursors[n]);
    DoneTidy(h, ls, x);
    MovedBank(h.flash, n, ls.banks[n], ls.cursors[n], x.no);
    forall m | m in ls'.banks
      ensures BankOk(h.flash, m, ls'.banks[m], ls'.cursors[m])
    {
      if m != n { assert BankOk(h.flash, m, ls.banks[m], ls.cursors[m]); }
    }
  }

  lemma HomeTidy(h: Host, x: Blk)
    requires Inv(h) && Spared(h) && TempIn(h.flash.table, h.rwStart, x) == {}
    requires x in h.flash.vcount && h.flash.vcount[x] != VC_MAX
    ensures Tidy(h.flash, x)
  {
    hide Owned, Addressed, Remaining, InBuffCounted, Injective;
    forall l | l in LiveIn(h.flash.table, x)
      ensures Effective(CellAt(h.flash, h.flash.table[l])) == l
    {
      assert l !in TempIn(h.flash.table, h.rwStart, x);
    }
  }

  // Without temporary pages, a block of the log list is a block of data.
  lemma DoneTidy(h: Host, ls: Lists, x: Blk)
    requires Inv(h) && Spared(h) && BanksOk(h.flash, ls)
    requires x.bank in ls.banks && x.no in ls.banks[x.bank].rw && TempIn(h.flash.table, h.rwStart, x) == {}
    ensures Tidy(h.flash, x)
  {
    hide Inv, Spared, ListsOk, DataOk;
    assert BankOk(h.flash, x.bank, ls.banks[x.bank], ls.cursors[x.bank]);
    HomeTidy(h, x);
  }

  // ------------------------------------------------ writing a full buffer

  // The superpage `vpn` of bank `n` has been assigned and is still to be written.
  ghost predicate Half(h: Host, ls: Lists, n: int, kind: WriteType, vpn: int) {
    && Inv(h) && Spared(h) && Known(h, ls) && ls.banks.Keys == ls.cursors.Keys && n in ls.banks
    && (forall m :: m in ls.banks && m != n ==> BankOk(h.flash, m, ls.banks[m], ls.cursors[m]))
    && (match kind
        case SW => Pending(h.flash, n, ls.banks[n], ls.cursors[n]) && ls.cursors[n].sw == vpn && Sorted(h, ls)
        case RW => && RwPending(h.flash, n, ls.banks[n], ls.cursors[n]) && ls.cursors[n].rw == vpn
                   && SortedBut(h, ls, Blk(n, vpn / PAGES_PER_BLK))
        case JN => false)
  }

  lemma HalfTarget(h: Host, ls: Lists, k: (int, WriteType), vpn: int)
    requires Half(h, ls, k.0, k.1, vpn) && k in h.buffers && Full(h.buffers[k])
    ensures Target(h, k, Blk(k.0, vpn / PAGES_PER_BLK), vpn % PAGES_PER_BLK) && 0 <= vpn
    ensures k.1 == RW ==> vpn / PAGES_PER_BLK in ls.banks[k.0].rw
    ensures k.1 == SW ==> vpn / PAGES_PER_BLK in ls.banks[k.0].data
  {
    hide Inv, Spared, Sorted, SortedBut, ListsOk, DataOk;
    if k.1 == SW {
      PendingPage(h.flash, k.0, ls.banks[k.0], ls.cursors[k.0]);
      TidyCount(h, Blk(k.0, vpn / PAGES_PER_BLK));
    } else {
      RwPendingPage(h.flash, k.0, ls.banks[k.0], ls.cursors[k.0]);
      assert vpn / PAGES_PER_BLK in All(ls.banks[k.0]);
    }
  }

  lemma TidyCount(h: Host, x: Blk)
    requires Inv(h) && Tidy(h.flash, x)
    ensures x in h.flash.vcount && h.flash.vcount[x] != VC_MAX
  {
    LiveFits(h.flash, x);
  }

  lemma FlushGentle(h: Host, h': Host, k: (int, WriteType), b: Blk, p: int, n: int, bank: Bank)
    requires Inv(h) && Target(h, k, b, p) && Flushed(h, h', k, b, p)
    requires Shaped(h'.flash) && Placed(h'.flash)
    ensures Gentle(h.flash, h'.flash, n, bank, {b})
    ensures b.bank != n ==> Gentle(h.flash, h'.flash, n, bank, {})
    ensures Legible(h.flash, b, p - 1) ==> Legible(h'.flash, b, p)
    ensures Blank(h.flash, b, p) ==> Blank(h'.flash, b, p + 1)
  {
    BufferFresh(h, k);
    hide Inv, Gentle, Filled, Fresh;
    InvShaped(h);
    FilledGentle(h.flash, h'.flash, h.buffers[k].slots, b, p, n, bank);
  }

  // The pages of a full buffer are not in flash.
  lemma BufferFresh(h: Host, k: (int, WriteType))
    requires Inv(h) && k in h.buffers && Full(h.buffers[k])
    ensures Fresh(h.flash, h.buffers[k].slots)
  {
    hide Tallied, Remaining, InBuffCounted, Injective;
    SlotsOwned(h, k);
    forall i | 0 <= i < SLOTS
      ensures Recorded(h.buffers[k].slots[i]) == INVALID_LPN || 0 <= Recorded(h.buffers[k].slots[i]) < |h.flash.table|
    {
      assert Holds(h, k, i);
    }
  }

  lemma FlushSpared(h: Host, h': Host, k: (int, WriteType), b: Blk, p: int)
    requires Inv(h) && Spared(h) && Target(h, k, b, p) && Flushed(h, h', k, b, p)
    requires Shaped(h'.flash) && Placed(h'.flash)
    ensures Spared(h')
  {
    hide Addressed, Remaining, InBuffCounted, Tallied, Injective, Owned;
    SlotsOwned(h, k);
    forall l | 0 <= l < |h'.flash.table| && l < h'.rwStart && h'.flash.table[l].Nand?
      ensures Effective(CellAt(h'.flash, h'.flash.table[l])) == l
    {
      PlaceOfReq(h, h', k, b, p, l);
      if l in Reqs(h.buffers[k].slots) {
        var i :| i in Named(h.buffers[k].slots) && h.buffers[k].slots[i].req == l && h'.flash.table[l] == Nand(b, p, i);
        assert Holds(h, k, i);
      }
    }
  }

  lemma CountFitsBlock(h: Host, h': Host, k: (int, WriteType), b: Blk, p: int)
    requires Inv(h) && Target(h, k, b, p) && Flushed(h, h', k, b, p)
    ensures 0 <= h'.flash.vcount[b] <= BLK_LPAGES
  {
    hide Remaining, InBuffCounted, Owned, Addressed;
    FlushOk(h, h', k, b, p);
    LiveFits(h.flash, b);
    LiveFits(h'.flash, b);
    NamedFew(h.buffers[k].slots);
  }

  lemma NamedFew(slots: seq<Slot>)
    ensures 0 <= |Named(slots)| <= |slots|
  {
    InjectionBound(Named(slots), i => i, |slots|);
  }

  // A block of data stays without temporary pages.
  lemma FlushedHome(h: Host, h': Host, ls: Lists, k: (int, WriteType), b: Blk, p: int)
    requires Inv(h) && Sorted(h, ls) && Target(h, k, b, p) && Flushed(h, h', k, b, p) && k.1 == SW
    requires b.bank in ls.banks && b.no in ls.banks[b.bank].data
    ensures TempIn(h'.flash.table, h.rwStart, b) == {}
  {
    hide Shaped, Placed, Injective, Tallied, Remaining, Addressed;
    VictimsHoldNoTemps(h, ls, b);
    SlotsOwned(h, k);
    TempsAndRemapped(h, k);
    TempAfter(h.flash.table, h'.flash.table, h.buffers[k].slots, b, p, h.rwStart, b);
  }

  lemma FlushLaw(h: Host, h': Host, ls: Lists, k: (int, WriteType), vpn: int)
    requires Half(h, ls, k.0, k.1, vpn) && k in h.buffers && Full(h.buffers[k])
    requires Target(h, k, Blk(k.0, vpn / PAGES_PER_BLK), vpn % PAGES_PER_BLK)
    requires Flushed(h, h', k, Blk(k.0, vpn / PAGES_PER_BLK), vpn % PAGES_PER_BLK)
    ensures Inv(h') && Spared(h') && BanksOk(h'.flash, ls) && Known(h', ls)
  {
    hide Inv, Spared, Flushed, Gentle, BankOk, Pending, RwPending, Sorted, SortedBut, Legible, Blank, TempIn;
    var b, p, n := Blk(k.0, vpn / PAGES_PER_BLK), vpn % PAGES_PER_BLK, k.0;
    FlushOk(h, h', k, b, p);
    InvShaped(h');
    FlushSpared(h, h', k, b, p);
    FlushKnown(h, h', k, b, p, ls);
    HalfTarget(h, ls, k, vpn);
    forall m | m in ls.banks
      ensures BankOk(h'.flash, m, ls.banks[m], ls.cursors[m])
    {
      FlushGentle(h, h', k, b, p, m, ls.banks[m]);
      if m != n {
        GentleBank(h.flash, h'.flash, m, ls.banks[m], ls.cursors[m]);
      } else {
        FlushedBank(h, h', ls, k, vpn);
      }
    }
  }

  lemma InvShaped(h: Host)
    requires Inv(h)
    ensures Shaped(h.flash) && Placed(h.flash)
  {
  }

  lemma FlushKnown(h: Host, h': Host, k: (int, WriteType), b: Blk, p: int, ls: Lists)
    requires Known(h, ls) && Target(h, k, b, p) && Flushed(h, h', k, b, p)
    ensures Known(h', ls) && h'.rwStart == h.rwStart
  {
  }

  lemma FlushedBank(h: Host, h': Host, ls: Lists, k: (int, WriteType), vpn: int)
    requires Half(h, ls, k.0, k.1, vpn) && k in h.buffers && Full(h.buffers[k]) && Inv(h') && Spared(h')
    requires h'.rwStart == h.rwStart
    requires Target(h, k, Blk(k.0, vpn / PAGES_PER_BLK), vpn % PAGES_PER_BLK)
    requires Flushed(h, h', k, Blk(k.0, vpn / PAGES_PER_BLK), vpn % PAGES_PER_BLK)
    ensures BankOk(h'.flash, k.0, ls.banks[k.0], ls.cursors[k.0])
  {
    hide Inv, Spared, Gentle, Sorted, SortedBut, Legible, Blank, TempIn, ListsOk, DataOk, Flushed, CursorOk;
    var b, p, n := Blk(k.0, vpn / PAGES_PER_BLK), vpn % PAGES_PER_BLK, k.0;
    HalfTarget(h, ls, k, vpn);
    InvShaped(h');
    FlushGentle(h, h', k, b, p, n, ls.banks[n]);
    CountFitsBlock(h, h', k, b, p);
    FlushKeys(h, h', k, b, p);
    if k.1 == SW {
      FlushedHome(h, h', ls, k, b, p);
      HomeTidy(h', b);
      PendingDone(h.flash, h'.flash, n, ls.banks[n], ls.cursors[n]);
    } else {
      RwPendingDone(h.flash, h'.flash, n, ls.banks[n], ls.cursors[n]);
    }
  }

  lemma FlushKeys(h: Host, h': Host, k: (int, WriteType), b: Blk, p: int)
    requires Target(h, k, b, p) && Flushed(h, h', k, b, p)
    ensures b in h'.flash.vcount
  {
  }

  // ------------------------------------------------ a superpage assigned

  // The host state after an allocation has collected: every page reads the same
  // and every count is right again.
  lemma AllocHost(h: Host, s: Flash, ls: Lists, n: int)
    requires Inv(h) && Spared(h) && Banked(ls) && TempsListed(h, ls) && n in ls.banks
    requires MeaningKept(h.flash, s, Reachable(n, ls.banks[n]))
    requires forall y :: y in Reachable(n, ls.banks[n]) ==> Settled(s, y)
    ensures var h' := h.(flash := s);
      && Inv(h') && Spared(h') && Readable(h) && Readable(h') && |s.table| == |h.flash.table|
      && (forall l :: 0 <= l < |s.table| ==> Read(h', l) == Read(h, l))
      && (forall c :: TempIn(s.table, h.rwStart, c) == TempIn(h.flash.table, h.rwStart, c))
  {
    hide Settled, Outside, Places, Apart;
    var h' := h.(flash := s);
    SameSize(h.flash, s);
    AllocTemps(h, s, ls, n);
    AllocOwned(h, s, Reachable(n, ls.banks[n]));
    AllocTally(h, s, Reachable(n, ls.banks[n]));
    AllocRemaining(h, s);
    AllocInBuff(h, s);
    AllocSpared(h, s, Reachable(n, ls.banks[n]));
    AllocReads(h, s, Reachable(n, ls.banks[n]));
    AllocInjective(h.flash, s, Reachable(n, ls.banks[n]));
  }

  lemma AllocInjective(s0: Flash, s: Flash, touched: set<Blk>)
    requires Outside(s0, s, touched) && Injective(s0.table)
    ensures Injective(s.table)
  {
  }

  lemma AllocTemps(h: Host, s: Flash, ls: Lists, n: int)
    requires 0 <= h.rwStart && Banked(ls) && TempsListed(h, ls) && n in ls.banks
    requires Outside(h.flash, s, Reachable(n, ls.banks[n]))
    ensures forall l :: Temp(h, l) && 0 <= l ==> s.table[l] == h.flash.table[l]
    ensures forall c :: TempIn(s.table, h.rwStart, c) == TempIn(h.flash.table, h.rwStart, c)
  {
    ApartFacts(ls.banks[n]);
    forall l | Temp(h, l) && 0 <= l
      ensures s.table[l] == h.flash.table[l]
    {
    }
    forall c
      ensures TempIn(s.table, h.rwStart, c) == TempIn(h.flash.table, h.rwStart, c)
    {
      forall l: int
        ensures l in TempIn(s.table, h.rwStart, c) <==> l in TempIn(h.flash.table, h.rwStart, c)
      {
        if h.rwStart <= l < |s.table| { assert Temp(h, l); }
      }
    }
  }

  lemma AllocOwned(h: Host, s: Flash, touched: set<Blk>)
    requires Addressed(h) && Owned(h) && Outside(h.flash, s, touched)
    ensures Addressed(h.(flash := s)) && Owned(h.(flash := s))
  {
    var h' := h.(flash := s);
    forall l | 0 <= l < |s.table| && (s.table[l].Buffered? || h.flash.table[l].Buffered?)
      ensures s.table[l] == h.flash.table[l]
    {
    }
    assert forall k, i :: Holds(h', k, i) ==> Holds(h, k, i);
  }

  lemma AllocTally(h: Host, s: Flash, touched: set<Blk>)
    requires Tallied(h.flash) && Shaped(s) && Placed(s) && Outside(h.flash, s, touched)
    requires forall y :: y in touched ==> Settled(s, y)
    ensures Tallied(s)
  {
    forall b | b in s.vcount
      ensures s.vcount[b] == |LiveIn(s.table, b)| || (s.vcount[b] == VC_MAX && LiveIn(s.table, b) == {})
    {
      if b !in touched { LiveOutside(h.flash, s, touched, b); } else { assert Settled(s, b); }
    }
  }

  lemma AllocRemaining(h: Host, s: Flash)
    requires Remaining(h) && |s.table| == |h.flash.table|
    requires forall c :: TempIn(s.table, h.rwStart, c) == TempIn(h.flash.table, h.rwStart, c)
    requires forall l :: Temp(h, l) && 0 <= l ==> s.table[l] == h.flash.table[l]
    ensures Remaining(h.(flash := s))
  {
  }

  lemma AllocInBuff(h: Host, s: Flash)
    requires InBuffCounted(h) && |s.table| == |h.flash.table|
    ensures InBuffCounted(h.(flash := s))
  {
    var h' := h.(flash := s);
    assert forall k, i :: Holds(h', k, i) <==> Holds(h, k, i);
    forall n | (n, RW) in h.buffers
      ensures Remapped(h', h.buffers[(n, RW)]) == Remapped(h, h.buffers[(n, RW)])
    {
    }
  }

  lemma AllocSpared(h: Host, s: Flash, touched: set<Blk>)
    requires Shaped(h.flash) && Placed(h.flash) && Spared(h) && MeaningKept(h.flash, s, touched)
    requires forall y :: y in touched ==> Settled(s, y)
    ensures Spared(h.(flash := s))
  {
    hide SameMeaning;
    var h' := h.(flash := s);
    assert forall k, i :: Holds(h', k, i) <==> Holds(h, k, i);
    forall l | 0 <= l < |s.table| && l < h.rwStart && s.table[l].Nand?
      ensures Effective(CellAt(s, s.table[l])) == l
    {
      if s.table[l].blk in touched {
        assert Settled(s, s.table[l].blk) && l in LiveIn(s.table, s.table[l].blk);
      } else {
        assert s.table[l] == h.flash.table[l];
      }
    }
  }

  lemma AllocReads(h: Host, s: Flash, touched: set<Blk>)
    requires Readable(h) && MeaningKept(h.flash, s, touched)
    ensures Readable(h.(flash := s))
    ensures forall l :: 0 <= l < |s.table| && l < |h.flash.table| ==> Read(h.(flash := s), l) == Read(h, l)
  {
    var h' := h.(flash := s);
    forall l | 0 <= l < |s.table| && s.table[l].Buffered?
      ensures InBuffer(h', s.table[l])
    {
      assert h.flash.table[l] == s.table[l] && InBuffer(h, h.flash.table[l]);
    }
    forall l | 0 <= l < |s.table| && l < |h.flash.table|
      ensures Read(h', l) == Read(h, l)
    {
      assert Resolve(s, l) == Resolve(h.flash, l);
    }
  }

  // Banks other than the one allocating are untouched.
  lemma OutsideGentle(s0: Flash, s: Flash, touched: set<Blk>, m: int, b: Bank)
    requires MeaningKept(s0, s, touched) && forall x: Blk :: x in touched ==> x.bank != m
    ensures Gentle(s0, s, m, b, {})
  {
    hide SameMeaning;
    SameSize(s0, s);
    forall y: Blk | y.bank == m
      ensures Tidy(s0, y) ==> Tidy(s, y)
      ensures FreeBlk(s0, y) ==> FreeBlk(s, y)
    {
      LiveOutside(s0, s, touched, y);
      if FreeBlk(s0, y) { FreeOutside(s0, s, touched, y); }
    }
  }

  ghost function With(ls: Lists, n: int, b: Bank, c: Cursors): Lists {
    Lists(ls.banks[n := b], ls.cursors[n := c])
  }

  // Every page reads the same.
  ghost predicate SameReads(h: Host, h': Host) {
    && Readable(h) && Readable(h') && |h'.flash.table| == |h.flash.table|
    && forall l :: 0 <= l < |h.flash.table| ==> Read(h', l) == Read(h, l)
  }

  // What an allocation for bank `n` has done.
  ghost predicate Allocated(h: Host, s: Flash, ls: Lists, n: int, b': Bank, c': Cursors, x: int) {
    && Law(h, ls) && n in ls.banks && MeaningKept(h.flash, s, Reachable(n, ls.banks[n]))
    && Reshuffled(ls.banks[n], b', x)
  }

  lemma AllocRest(h: Host, s: Flash, ls: Lists, n: int, b': Bank, c': Cursors, x: int)
    requires Allocated(h, s, ls, n, b', c', x)
    requires forall y :: y in Reachable(n, ls.banks[n]) ==> Settled(s, y)
    ensures var h', ls' := h.(flash := s), With(ls, n, b', c');
      && Inv(h') && 0 <= h.rwStart && Spared(h') && Readable(h) && Readable(h') && |s.table| == |h.flash.table|
      && (forall l :: 0 <= l < |s.table| ==> Read(h', l) == Read(h, l))
      && (forall c :: TempIn(s.table, h.rwStart, c) == TempIn(h.flash.table, h.rwStart, c))
      && Known(h', ls') && ls'.banks.Keys == ls'.cursors.Keys && Banked(ls')
      && (forall m :: m in ls'.banks && m != n ==> BankOk(s, m, ls'.banks[m], ls'.cursors[m]))
  {
    hide Inv, Spared, Settled, BankOk, MeaningKept, TempsListed, Readable, Read, TempIn, Apart, Reshuffled, Gentle;
    AllocHost(h, s, ls, n);
    InvStart(h);
    ReshuffledAll(ls.banks[n], b', x);
    forall m | m in ls.banks && m != n
      ensures BankOk(s, m, ls.banks[m], ls.cursors[m])
    {
      assert BankOk(h.flash, m, ls.banks[m], ls.cursors[m]);
      OutsideGentle(h.flash, s, Reachable(n, ls.banks[n]), m, ls.banks[m]);
      GentleBank(h.flash, s, m, ls.banks[m], ls.cursors[m]);
    }
  }

  lemma InvStart(h: Host)
    requires Inv(h)
    ensures 0 <= h.rwStart
  {
  }

  lemma AllocatedSW(h: Host, s: Flash, ls: Lists, n: int, b': Bank, c': Cursors, x: int)
    requires Allocated(h, s, ls, n, b', c', x) && b'.rw == ls.banks[n].rw && c'.rw == ls.cursors[n].rw
    requires Pending(s, n, Trim(b'), c')
    ensures var h', ls' := h.(flash := s), With(ls, n, b', c');
      Half(h', ls', n, SW, c'.sw) && SameReads(h, h')
  {
    hide Inv, Spared, Settled, BankOk, MeaningKept, Readable, Read, TempIn, Apart, Reshuffled, Known, CursorOk,
         LogOk, Places;
    var h', ls' := h.(flash := s), With(ls, n, b', c');
    PendingSettled(h, s, ls, n, b', c', x);
    AllocRest(h, s, ls, n, b', c', x);
    OldVictims(h, ls, n, b', x);
    TrimPending(s, n, b', c');
    AllocSorted(h, h', ls, ls', n, b', c');
  }

  lemma OldVictims(h: Host, ls: Lists, n: int, b': Bank, x: int)
    requires Law(h, ls) && n in ls.banks && Reshuffled(ls.banks[n], b', x)
    ensures Apart(b') && forall y :: y in b'.victims ==> 0 <= y < NO_BLOCK
  {
    assert BankOk(h.flash, n, ls.banks[n], ls.cursors[n]);
    ReshuffledAll(ls.banks[n], b', x);
    assert forall y :: y in b'.victims ==> y in All(ls.banks[n]);
  }

  lemma PendingSettled(h: Host, s: Flash, ls: Lists, n: int, b': Bank, c': Cursors, x: int)
    requires Allocated(h, s, ls, n, b', c', x) && b'.rw == ls.banks[n].rw && Pending(s, n, Trim(b'), c')
    ensures forall y :: y in Reachable(n, ls.banks[n]) ==> Settled(s, y)
  {
    hide Inv, Spared, Settled, BankOk, MeaningKept, Readable, Read, TempIn, Apart, Known, CursorOk, LogOk,
         Places, Tidy, Reshuffled, FreeBlk, Blank, Legible;
    OldVictims(h, ls, n, b', x);
    TrimLists(s, n, b');
    forall y | y in b'.data
      ensures Tidy(s, Blk(n, y))
    {
      assert y != c'.sw / PAGES_PER_BLK ==> BlockOk(s, Blk(n, y), c'.sw, c'.rw, c'.jn, c'.gc);
    }
    OldApart(h, ls, n);
    AllSettled(s, n, ls.banks[n], b', x);
  }

  lemma OldApart(h: Host, ls: Lists, n: int)
    requires Law(h, ls) && n in ls.banks
    ensures Apart(ls.banks[n])
  {
  }

  lemma TrimLists(s: Flash, n: int, b: Bank)
    requires Apart(b) && (forall y :: y in b.victims ==> 0 <= y < NO_BLOCK) && ListsOk(s, n, Trim(b))
    ensures ListsOk(s, n, b)
  {
    TrimAll(b);
  }

  lemma AllocSorted(h: Host, h': Host, ls: Lists, ls': Lists, n: int, b': Bank, c': Cursors)
    requires Sorted(h, ls) && n in ls.banks && ls' == With(ls, n, b', c') && Banked(ls') && h'.rwStart == h.rwStart >= 0
    requires b'.rw == ls.banks[n].rw && c'.rw == ls.cursors[n].rw && |h'.flash.table| == |h.flash.table|
    requires forall c :: TempIn(h'.flash.table, h.rwStart, c) == TempIn(h.flash.table, h.rwStart, c)
    ensures Sorted(h', ls')
  {
    hide Apart, Places, TempIn;
    SortedSame(h, h', ls);
  }

  lemma AllocatedRW(h: Host, s: Flash, ls: Lists, n: int, b': Bank, c': Cursors, x: int)
    requires Allocated(h, s, ls, n, b', c', x) && RwPending(s, n, Trim(b'), c') && x == c'.rw / PAGES_PER_BLK
    requires if ls.cursors[n].rw % PAGES_PER_BLK == PAGES_PER_BLK - 1
             then b'.rw == ls.banks[n].rw + [x] && FreeBlk(s, Blk(n, x))
             else b'.rw == ls.banks[n].rw && x == ls.cursors[n].rw / PAGES_PER_BLK
    ensures var h', ls' := h.(flash := s), With(ls, n, b', c');
      Half(h', ls', n, RW, c'.rw) && SameReads(h, h')
  {
    hide Inv, Spared, Settled, BankOk, MeaningKept, Readable, Read, TempIn, Apart, Reshuffled, Known, CursorOk,
         RwOk, Places;
    var h', ls' := h.(flash := s), With(ls, n, b', c');
    RwPendingSettled(h, s, ls, n, b', c', x);
    AllocRest(h, s, ls, n, b', c', x);
    OldVictims(h, ls, n, b', x);
    TrimPending(s, n, b', c');
    AllocSortedRW(h, h', ls, ls', n, b', c', x);
  }

  lemma RwPendingSettled(h: Host, s: Flash, ls: Lists, n: int, b': Bank, c': Cursors, x: int)
    requires Allocated(h, s, ls, n, b', c', x) && RwPending(s, n, Trim(b'), c')
    requires b'.rw != ls.banks[n].rw ==> FreeBlk(s, Blk(n, x))
    ensures forall y :: y in Reachable(n, ls.banks[n]) ==> Settled(s, y)
  {
    hide Inv, Spared, Settled, BankOk, MeaningKept, Readable, Read, TempIn, Apart, Known, CursorOk, RwOk,
         Places, Tidy, Reshuffled, FreeBlk, Blank, Legible;
    OldVictims(h, ls, n, b', x);
    TrimLists(s, n, b');
    forall y | y in b'.data
      ensures Tidy(s, Blk(n, y))
    {
      assert BlockOk(s, Blk(n, y), c'.sw, c'.rw, c'.jn, c'.gc);
    }
    OldApart(h, ls, n);
    AllSettled(s, n, ls.banks[n], b', x);
  }

  lemma AllocSortedRW(h: Host, h': Host, ls: Lists, ls': Lists, n: int, b': Bank, c': Cursors, x: int)
    requires Sorted(h, ls) && n in ls.banks && ls' == With(ls, n, b', c') && Banked(ls') && h'.rwStart == h.rwStart >= 0
    requires x == c'.rw / PAGES_PER_BLK && |h'.flash.table| == |h.flash.table|
    requires if ls.cursors[n].rw % PAGES_PER_BLK == PAGES_PER_BLK - 1 then b'.rw == ls.banks[n].rw + [x]
             else b'.rw == ls.banks[n].rw && x == ls.cursors[n].rw / PAGES_PER_BLK
    requires forall c :: TempIn(h'.flash.table, h.rwStart, c) == TempIn(h.flash.table, h.rwStart, c)
    ensures SortedBut(h', ls', Blk(n, x))
  {
    hide Apart, Places, TempIn;
    SortedSame(h, h', ls);
  }

  // ------------------------------------------------ the whole law again

  // At most one block has moved, and none that is awaited or being written.
  ghost predicate OneMove(h: Host, ls: Lists, ls': Lists, b: Blk) {
    || ls' == ls
    || (&& b.bank in ls.banks && b.bank in ls.cursors && b.no in ls.banks[b.bank].rw
        && !Ongoing(ls.cursors[b.bank].rw, b.no) && TempIn(h.flash.table, h.rwStart, b) == {} && ls' == Moved(ls, b))
  }

  lemma OneMoveLaw(h: Host, ls: Lists, ls': Lists, b: Blk)
    requires Inv(h) && Spared(h) && BanksOk(h.flash, ls) && Known(h, ls) && OneMove(h, ls, ls', b)
    ensures BanksOk(h.flash, ls') && Known(h, ls')
  {
    if ls' != ls { MoveLaw(h, ls, b); }
  }

  // A pair still to be done keeps its agreement.
  lemma AgreedKept(h: Host, t: int, o: int, t2: int, o2: int)
    requires Inv(h) && Temp(h, t) && 0 <= t && 0 <= o < h.rwStart && o < |h.flash.table| && h.flash.table[t] != Unmapped
    requires t2 != t && Temp(h, t2) && 0 <= t2 && Agreed(h, t2, o2)
    ensures Inv(RemapPair(h, t, o)) && |RemapPair(h, t, o).flash.table| == |h.flash.table|
    ensures Agreed(RemapPair(h, t, o), t2, o2)
  {
    hide Inv, Owned, CellAt, SlotAt, InBuffer, Shaped, Placed;
    var h', p := RemapPair(h, t, o), h.flash.table[t2];
    RemapPairOk(h, t, o);
    SameStored(h, t, o);
    if p.Nand? {
      SameCell(h, h', t2);
    } else if p.Buffered? {
      SameSlot(h, h', t2);
    }
  }

  // A pair changes no spare area and no recorded address.
  lemma SameStored(h: Host, t: int, o: int)
    requires Inv(h) && Temp(h, t) && 0 <= t && 0 <= o < h.rwStart && o < |h.flash.table| && h.flash.table[t] != Unmapped
    ensures var h' := RemapPair(h, t, o);
      && h'.flash.nand == h.flash.nand && h'.buffers.Keys == h.buffers.Keys
      && forall k, i :: k in h.buffers && 0 <= i < |h.buffers[k].slots| && i < |h'.buffers[k].slots| ==>
           h'.buffers[k].slots[i].remap == h.buffers[k].slots[i].remap
  {
    hide Inv, Owned;
    GivenUpOk(h, o);
    HandKnown(GivenUp(h, o), t);
  }

  lemma SameCell(h: Host, h': Host, l: int)
    requires Inv(h) && Inv(h') && 0 <= l < |h.flash.table| && h.flash.table[l].Nand? && h'.flash.nand == h.flash.nand
    requires |h'.flash.table| == |h.flash.table| && h'.flash.table[l] == h.flash.table[l]
    ensures forall o :: Agreed(h, l, o) ==> Agreed(h', l, o)
  {
  }

  lemma SameSlot(h: Host, h': Host, l: int)
    requires Inv(h) && Inv(h') && 0 <= l < |h.flash.table| && h.flash.table[l].Buffered?
    requires h'.buffers.Keys == h.buffers.Keys
    requires forall k, i :: k in h.buffers && 0 <= i < |h.buffers[k].slots| && i < |h'.buffers[k].slots| ==>
      h'.buffers[k].slots[i].remap == h.buffers[k].slots[i].remap
    requires |h'.flash.table| == |h.flash.table| && h'.flash.table[l] == h.flash.table[l]
    ensures forall o :: Agreed(h, l, o) ==> Agreed(h', l, o)
  {
    hide Tallied, Remaining, InBuffCounted, Injective, Addressed, Shaped, Placed;
    assert SlotAt(h, h.flash.table[l]).req == l && SlotAt(h', h.flash.table[l]).req == l;
  }

  // ------------------------------------------------ RSP_Open

  // Nothing is mapped or buffered, no remap is awaited, and each bank's lists
  // are as they were set up.
  ghost predicate Pristine(h: Host, ls: Lists, n: nat, m: nat)
    requires m + 5 <= n
  {
    && Shaped(h.flash) && h.flash.bits == {} && |h.flash.table| <= INVALID_LPN && 0 <= h.rwStart
    && (forall l :: 0 <= l < |h.flash.table| ==> h.flash.table[l] == Unmapped)
    && (forall x :: x in h.flash.vcount ==> h.flash.vcount[x] == 0 || h.flash.vcount[x] == VC_MAX)
    && (forall k :: k in h.buffers ==> h.buffers[k] == EmptyBuffer())
    && (forall x :: x in h.remained ==> h.remained[x] == 0)
    && (forall k :: (k, RW) in h.buffers ==> k in h.inBuff && h.inBuff[k] == 0)
    && Known(h, ls) && ls.banks.Keys == ls.cursors.Keys
    && (forall k :: k in ls.banks ==>
          && BankOk(h.flash, k, ls.banks[k], ls.cursors[k])
          && ls.banks[k] == AfterOpen(n, m) && ls.cursors[k] == OpenCursors(n, m))
  }

  function EmptyBuffer(): Buffer {
    Buffer(seq(SLOTS, _ => Slot(INVALID_LPN, INVALID_LPN, 0)), seq(SLOTS, _ => false), seq(PLANES, _ => 0), 0)
  }

  lemma PristineFirst(h: Host, ls: Lists, n: nat, m: nat)
    requires m + 5 <= n && Shaped(h.flash) && h.flash.bits == {} && |h.flash.table| <= INVALID_LPN && 0 <= h.rwStart
    requires forall l :: 0 <= l < |h.flash.table| ==> h.flash.table[l] == Unmapped
    requires h.flash.vcount == map[] && h.buffers == map[] && h.remained == map[] && h.inBuff == map[]
    requires ls == Lists(map[], map[])
    ensures Pristine(h, ls, n, m)
  {
  }

  lemma PristineLists(h: Host, ls: Lists, n: nat, m: nat)
    requires m + 5 <= n && Pristine(h, ls, n, m)
    ensures forall k :: k in ls.banks ==>
      k in ls.cursors && ls.banks[k] == AfterOpen(n, m) && ls.cursors[k] == OpenCursors(n, m)
  {
  }

  lemma PristineLaw(h: Host, ls: Lists, n: nat, m: nat)
    requires m + 5 <= n && Pristine(h, ls, n, m)
    ensures Law(h, ls) && forall k :: k in h.buffers ==> !Full(h.buffers[k])
  {
    hide BankOk, AfterOpen;
    OpenBlocks(n, m);
    OpenPartition(n, m);
    assert forall x :: LiveIn(h.flash.table, x) == {} && TempIn(h.flash.table, h.rwStart, x) == {};
    PristineBuffers(h);
    forall k | k in ls.banks
      ensures BankOk(h.flash, k, ls.banks[k], ls.cursors[k])
    {
    }
  }

  lemma PristineBuffers(h: Host)
    requires forall k :: k in h.buffers ==> h.buffers[k] == EmptyBuffer()
    requires forall k :: (k, RW) in h.buffers ==> k in h.inBuff && h.inBuff[k] == 0
    requires forall l :: 0 <= l < |h.flash.table| ==> h.flash.table[l] == Unmapped
    ensures Addressed(h) && Owned(h) && InBuffCounted(h) && forall k, i :: !Holds(h, k, i)
    ensures forall k :: k in h.buffers ==> BufferShape(h.buffers[k]) && !Full(h.buffers[k])
  {
    forall k, i
      ensures !Holds(h, k, i)
    {
    }
    forall n | (n, RW) in h.buffers
      ensures Remapped(h, h.buffers[(n, RW)]) == {}
    {
    }
    assert !EmptyBuffer().filled[0];
  }

  lemma UntrimOk(s: Flash, k: int, n: nat, m: nat)
    requires m + 5 <= n && BankOk(s, k, OpenLists(n, m), OpenCursors(n, m))
    ensures BankOk(s, k, AfterOpen(n, m), OpenCursors(n, m))
  {
    hide Legible, Blank, Tidy, FreeBlk, Places, Shaped, Placed;
    OpenPartition(n, m);
    assert Apart(AfterOpen(n, m));
    assert OpenLists(n, m) == Trim(AfterOpen(n, m)) && AfterOpen(n, m).victims == [];
    TrimAll(AfterOpen(n, m));
  }

  // Opening one more bank leaves the others as they are.
  lemma OpenedNext(s0: Flash, s: Flash, k: int, n: nat, j: int, b: Bank, c: Cursors)
    requires BankOk(s0, j, b, c) && j != k && Shaped(s0) && Placed(s0) && s.table == s0.table && s.bits == s0.bits
    requires Outside(s0, s, set x | 0 <= x < n :: Blk(k, x)) && Shaped(s)
    requires (forall l :: 0 <= l < |s0.table| ==> s0.table[l] == Unmapped) && s0.bits == {}
    ensures BankOk(s, j, b, c)
  {
    hide BankOk;
    OutsideGentle(s0, s, set x | 0 <= x < n :: Blk(k, x), j, b);
    GentleBank(s0, s, j, b, c);
  }

  ghost predicate Unused(vcount: map<Blk, int>, k: int, n: nat) {
    forall x :: 0 <= x < n ==> Blk(k, x) in vcount && (vcount[Blk(k, x)] == 0 || vcount[Blk(k, x)] == VC_MAX)
  }

  lemma PristineNext(h: Host, h': Host, ls: Lists, k: int, n: nat, m: nat)
    requires m + 5 <= n && Pristine(h, ls, n, m) && k !in ls.banks && h'.rwStart == h.rwStart
    requires Shaped(h'.flash) && h'.flash.table == h.flash.table && h'.flash.bits == h.flash.bits
    requires Outside(h.flash, h'.flash, set x | 0 <= x < n :: Blk(k, x))
    requires Unused(h'.flash.vcount, k, n)
    requires BankOk(h'.flash, k, OpenLists(n, m), OpenCursors(n, m))
    requires h'.buffers == h.buffers[(k, SW) := EmptyBuffer()][(k, JN) := EmptyBuffer()][(k, RW) := EmptyBuffer()]
    requires h'.inBuff == h.inBuff[k := 0]
    requires forall y :: y in h'.remained <==> y in h.remained || (y.bank == k && 0 <= y.no < n)
    requires forall y :: y in h'.remained ==> h'.remained[y] == 0
    ensures Pristine(h', With(ls, k, AfterOpen(n, m), OpenCursors(n, m)), n, m)
  {
    hide BankOk, AfterOpen, Outside, Unused, Shaped;
    UntrimOk(h'.flash, k, n, m);
    PristineCounts(h, h', k, n);
    OpenedAll(n, m);
    forall j | j in ls.banks
      ensures BankOk(h'.flash, j, ls.banks[j], ls.cursors[j])
    {
      OpenedNext(h.flash, h'.flash, k, n, j, ls.banks[j], ls.cursors[j]);
    }
  }

  lemma OpenedAll(n: nat, m: nat)
    requires m + 5 <= n
    ensures forall x :: x in All(AfterOpen(n, m)) ==> 0 <= x < n
  {
    OpenBlocks(n, m);
  }

  lemma PristineCounts(h: Host, h': Host, k: int, n: nat)
    requires forall x :: x in h.flash.vcount ==> h.flash.vcount[x] == 0 || h.flash.vcount[x] == VC_MAX
    requires Outside(h.flash, h'.flash, set x | 0 <= x < n :: Blk(k, x))
    requires Unused(h'.flash.vcount, k, n)
    ensures forall x :: x in h'.flash.vcount ==> h'.flash.vcount[x] == 0 || h'.flash.vcount[x] == VC_MAX
  {
    forall x | x in h'.flash.vcount
      ensures h'.flash.vcount[x] == 0 || h'.flash.vcount[x] == VC_MAX
    {
      if x.bank == k && 0 <= x.no < n { assert x == Blk(k, x.no); }
    }
  }
}
