/** write_page and __do_remap on the write buffers, the tables and the block
    lists (ATLWrapper.cpp:1032-1199, 1337-1681), for writes of whole pages. */
module HostWriter {
  import opened Layout
  import opened SetSizes
  import opened FlashState
  import opened FlashDevice
  import opened GcSpace
  import opened BufferState
  import opened BufferFlush
  import opened BufferRemap
  import opened BlockPartition
  import opened BankLaw
  import opened BlockLists
  import opened HostLaw
  import opened SlotMapping
  import opened TempRecords
  import GC = GarbageCollector

  class Writer {
    const dev: Device
    const rwStart: int                               // RW_LOG_START_IN_PAGE
    var buffers: map<(int, WriteType), Buffer>
    var remained: map<Blk, int>
    var inBuff: map<int, int>
    var lists: map<int, Bank>
    var cursors: map<int, Cursors>

    ghost function State(): Host
      reads this, dev
    {
      Host(dev.State(), buffers, remained, inBuff, rwStart)
    }

    ghost function BlockLists(): Lists
      reads this
    {
      Lists(lists, cursors)
    }

    ghost predicate Valid()
      reads this, dev
    {
      Inv(State()) && Sorted(State(), BlockLists())
    }

    // Moreover, the spare areas, blocks and cursors are as collection needs them.
    ghost predicate Lawful()
      reads this, dev
    {
      Law(State(), BlockLists())
    }

    // No buffer is full between two writes.
    ghost predicate Quiet()
      reads this
    {
      forall k :: k in buffers ==> !Full(buffers[k])
    }

    // RSP_Open of `banks` banks with `n` blocks each, `m` of them for map pages.
    constructor Open(d: Device, start: nat, banks: nat, n: nat, m: nat)
      requires Shaped(d.State()) && d.bits == {} && d.vcount == map[] && |d.table| <= INVALID_LPN
      requires m + 5 <= n <= NO_BLOCK
      requires forall l :: 0 <= l < |d.table| ==> d.table[l] == Unmapped
      modifies d`nand, d`vcount
      ensures Lawful() && Quiet() && dev == d && rwStart == start
      ensures forall k :: k in lists <==> 0 <= k < banks
      ensures forall k :: k in lists ==> k in cursors && lists[k] == AfterOpen(n, m) && cursors[k] == OpenCursors(n, m)
      ensures forall k, kind :: (k, kind) in buffers <==> 0 <= k < banks
      ensures forall k :: k in buffers ==> buffers[k] == EmptyBuffer()
    {
      dev, rwStart := d, start;
      buffers, remained, inBuff, lists, cursors := map[], map[], map[], map[], map[];
      new;
      PristineFirst(State(), BlockLists(), n, m);
      hide AfterOpen, BankOk, Pristine, Shaped, Law, OpenCursors, EmptyBuffer;
      OpenBanks(banks, n, m);
      PristineLaw(State(), BlockLists(), n, m);
      PristineLists(State(), BlockLists(), n, m);
      NothingBuffered(State(), BlockLists(), n, m);
    }

    method OpenBanks(banks: nat, n: nat, m: nat)
      requires m + 5 <= n <= NO_BLOCK && Pristine(State(), BlockLists(), n, m) && lists == map[] && buffers == map[]
      modifies this`buffers, this`remained, this`inBuff, this`lists, this`cursors, dev`nand, dev`vcount
      ensures Pristine(State(), BlockLists(), n, m)
      ensures forall k :: k in lists <==> 0 <= k < banks
      ensures forall k, kind :: (k, kind) in buffers <==> 0 <= k < banks
    {
      hide BankOk, AfterOpen, Pristine, Shaped;
      for k := 0 to banks
        invariant Pristine(State(), BlockLists(), n, m)
        invariant (forall j :: j in lists <==> 0 <= j < k) && (forall j, kind :: (j, kind) in buffers <==> 0 <= j < k)
      {
        OpenBank(k, n, m);
      }
    }

    // One more bank, as RSP_Open leaves it.
    method OpenBank(k: nat, n: nat, m: nat)
      requires m + 5 <= n <= NO_BLOCK && Pristine(State(), BlockLists(), n, m) && k !in lists
      modifies this`buffers, this`remained, this`inBuff, this`lists, this`cursors, dev`nand, dev`vcount
      ensures Pristine(State(), BlockLists(), n, m)
      ensures lists.Keys == old(lists).Keys + {k} && forall j, kind :: (j, kind) in buffers <==>
        (j, kind) in old(buffers) || j == k
    {
      hide BankOk, AfterOpen, Outside, Pristine, Shaped;
      ghost var h, ls := State(), BlockLists();
      PristineFlash(h, ls, n, m);
      AddBuffers(k);
      AwaitNone(k, n);
      var frames, addresses := new Data[SLOTS + 1], new int[SLOTS];
      var c := new GC.Collector.Open(dev, k, n, m, frames, addresses);
      OpenBlocks(n, m);
      lists := lists[k := AfterOpen(n, m).(free := c.freeList, data := c.dataList, rw := c.rwList, gc := [c.gcBlk])];
      cursors := cursors[k := Cursors(c.cur, c.curRW, c.curJN, c.curGc, c.startedSW, c.startedRW)];
      PristineNext(h, State(), ls, k, n, m);
    }

    // The bank's write buffers, one for each type.
    method AddBuffers(k: nat)
      modifies this`buffers, this`inBuff
      ensures buffers == old(buffers)[(k, SW) := EmptyBuffer()][(k, JN) := EmptyBuffer()][(k, RW) := EmptyBuffer()]
      ensures inBuff == old(inBuff)[k := 0]
      ensures forall j, kind :: (j, kind) in buffers <==> (j, kind) in old(buffers) || j == k
    {
      buffers := buffers[(k, SW) := EmptyBuffer()][(k, JN) := EmptyBuffer()][(k, RW) := EmptyBuffer()];
      inBuff := inBuff[k := 0];
      forall kind: WriteType
        ensures (k, kind) in buffers
      {
        match kind { case SW => case JN => case RW => }
      }
    }

    method AwaitNone(k: nat, n: nat)
      requires forall y :: y in remained ==> remained[y] == 0
      modifies this`remained
      ensures forall y :: y in remained <==> y in old(remained) || (y.bank == k && 0 <= y.no < n)
      ensures forall y :: y in remained ==> remained[y] == 0
    {
      for x := 0 to n
        invariant forall y :: y in remained <==> y in old(remained) || (y.bank == k && 0 <= y.no < x)
        invariant forall y :: y in remained ==> remained[y] == 0
      {
        remained := remained[Blk(k, x) := 0];
      }
    }

    lemma NothingBuffered(h: Host, ls: Lists, n: nat, m: nat)
      requires m + 5 <= n && Pristine(h, ls, n, m)
      ensures forall k :: k in h.buffers ==> h.buffers[k] == EmptyBuffer()
    {
      hide BankOk, Known;
    }

    lemma PristineFlash(h: Host, ls: Lists, n: nat, m: nat)
      requires m + 5 <= n && Pristine(h, ls, n, m)
      ensures Shaped(h.flash) && h.flash.bits == {} && |h.flash.table| <= INVALID_LPN
      ensures forall l :: 0 <= l < |h.flash.table| ==> h.flash.table[l] == Unmapped
      ensures forall y :: y in h.remained ==> h.remained[y] == 0
    {
    }

    // ---------------------------------------------- leaving the log list

    // A block no remap is awaited for goes to the data list, unless it is still
    // being written; `h` is the state in which the count is right.
    method MoveIfDone(b: Blk, ghost h: Host)
      requires SortedBut(h, BlockLists(), b) && b in remained && remained[b] == |TempIn(h.flash.table, h.rwStart, b)|
      requires b.bank in lists && b.no in lists[b.bank].rw && b.bank in cursors
      modifies this`lists
      ensures Sorted(h, BlockLists()) && OneMove(h, old(BlockLists()), BlockLists(), b)
      ensures BlockLists() == if remained[b] == 0 && !Ongoing(cursors[b.bank].rw, b.no) then Moved(old(BlockLists()), b)
                              else old(BlockLists())
    {
      if remained[b] == 0 && !Ongoing(cursors[b.bank].rw, b.no) {
        MovedOk(h, BlockLists(), b);
        var bank := lists[b.bank];
        lists := lists[b.bank := bank.(rw := Without(bank.rw, b.no), data := bank.data + [b.no])];
      } else {
        NotDue(h, BlockLists(), b);
      }
    }

    // ---------------------------------------------- the overwritten page

    // The old page in flash is invalidated and uncounted; if its address is
    // temporary, its remap is no longer awaited.
    method DropOld(lpn: int, kind: WriteType)
      requires Lawful() && 0 <= lpn < |dev.table| && dev.table[lpn].Nand? && (kind == RW <==> lpn >= rwStart)
      requires dev.table[lpn].blk in dev.vcount && (lpn >= rwStart ==> dev.table[lpn].blk in remained)
      modifies this`remained, this`lists, dev`bits, dev`vcount
      ensures State().(flash := dev.State().(table := dev.table[lpn := Unmapped])) == Released(old(State()), lpn)
      ensures Law(Released(old(State()), lpn), BlockLists())
      ensures BlockLists() == ListsWithout(old(State()), old(BlockLists()), lpn)
    {
      hide Inv, Sorted, SortedBut, TempIn, LiveIn, BanksOk, Known, Spared;
      ghost var h := State();
      ghost var h' := Released(h, lpn);
      InvParts(h);
      ReleaseKnown(h, lpn);
      ReleaseOk(h, lpn);
      ReleaseLaw(h, lpn, BlockLists());
      InvParts(h');
      ReleaseLists(h, lpn);
      ghost var ls := BlockLists();
      var place := dev.GetVpn(lpn);
      Uncount(place);
      if kind == RW {
        remained := remained[place.blk := remained[place.blk] - 1];
        TempListed(h, lpn);
        SortedWeak(h, BlockLists(), place.blk);
        SortedKept(h, h', BlockLists(), place.blk);
        MoveIfDone(place.blk, h');
        OneMoveLaw(h', ls, BlockLists(), place.blk);
      } else {
        SortedSame(h, h', BlockLists());
      }
    }

    // The bit and the count of a page given up.
    method Uncount(place: Place)
      requires place.Nand? && place.blk in dev.vcount && 0 < dev.vcount[place.blk] <= BLK_LPAGES
      modifies dev`bits, dev`vcount
      ensures dev.bits == old(dev.bits) - {place}
      ensures dev.vcount == old(dev.vcount)[place.blk := old(dev.vcount)[place.blk] - 1]
    {
      dev.InvalidateVpn(place);
      var v := dev.GetVcount(place.blk);
      dev.SetVcount(place.blk, v - 1);
    }

    lemma TempListed(h: Host, lpn: int)
      requires Sorted(h, BlockLists()) && Temp(h, lpn) && 0 <= lpn && h.flash.table[lpn].Nand?
      ensures var b := h.flash.table[lpn].blk; b.bank in lists && b.no in lists[b.bank].rw && b.bank in cursors
    {
    }

    // ---------------------------------------------- entering the buffer

    // The half of the buffer a page goes to: the tail of the frame entered
    // last, a new frame, or, when the frames are used up, the first hole.
    method ChooseSlot(b: Buffer, high: bool, frame: int) returns (i: int, hole: bool)
      requires BufferShape(b) && !Full(b)
      requires NewFrame(b, high, frame)
      ensures 0 <= i < SLOTS && i / 2 <= b.index && !b.filled[i]
      ensures hole <==> !OwnFrame(b, high, frame)
      ensures Seat(b, high, frame, i, hole)
    {
      hole := false;
      if b.index == 0 {
        i := if high then 1 else 0;
      } else if high && frame == b.frames[b.index - 1] {
        i := b.index * 2 - 1;
      } else if b.index < PLANES {
        i := if high then b.index * 2 + 1 else b.index * 2;
      } else {
        // every frame holds a page, so some half has been taken
        assert b.filled[0] || b.filled[1] by { assert b.filled[0 * 2] || b.filled[0 * 2 + 1]; }
        hole := true;
        i := 0;
        while b.filled[i]
          invariant 0 <= i < SLOTS && forall j :: 0 <= j < i ==> b.filled[j]
          decreases SLOTS - i
        {
          i := i + 1;
        }
        assert b.filled[i / 2 * 2] || b.filled[i / 2 * 2 + 1];
      }
    }

    // The page enters a slot of the bank's buffer and is mapped there; `h` is
    // the state after its old page has been let go.
    method PutSlot(k: (int, WriteType), lpn: int, olpn: int, high: bool, frame: int, d: Data, ghost h: Host)
        returns (hole: bool, ghost at: int)
      requires 0 <= lpn < |dev.table| && h == State().(flash := dev.State().(table := dev.table[lpn := Unmapped]))
      requires Law(h, BlockLists()) && k in buffers && !Full(buffers[k]) && (k.1 == RW <==> lpn >= rwStart)
      requires (olpn == INVALID_LPN || 0 <= olpn < |dev.table|) && (k.1 != RW ==> olpn == INVALID_LPN)
      requires NewFrame(buffers[k], high, frame)
      modifies this`buffers, dev`table
      ensures Lawful() && Readable(h) && Readable(State()) && Updated(h, State(), lpn, Some(d))
      ensures forall c :: TempIn(dev.table, rwStart, c) == TempIn(h.flash.table, rwStart, c)
      ensures BufferShape(old(buffers)[k]) && Seat(old(buffers)[k], high, frame, at, hole)
      ensures k in buffers && BufferedOnly(h.flash, dev.State())
      ensures buffers == old(buffers)[k := SeatTaken(old(buffers)[k], at, Slot(lpn, olpn, d), frame, hole)]
      ensures dev.table == h.flash.table[lpn := Buffered(k.0, k.1, at)]
      ensures Full(buffers[k]) ==> LastHole(old(buffers)[k])
      ensures hole <==> !OwnFrame(old(buffers)[k], high, frame)
      ensures TempsKept(h, State(), {lpn}) && dev.table[lpn] != Unmapped && Record(State(), lpn) == Slot(lpn, olpn, d)
    {
      hide TempsKept, Record;
      hide Sorted, TempIn, Owned, Addressed, Injective, Tallied, Remaining, InBuffCounted, Shaped, Placed,
           Spared, BanksOk, Known, LastHole, Full, Readable, Read, OwnFrame, Seat;
      var b := buffers[k];
      var i;
      i, hole := ChooseSlot(b, high, frame);
      at := i;
      var slot := Slot(lpn, olpn, d);
      var frame' := if hole then b.frames[i / 2] else frame;
      PlaceOk(h, k, i, slot, frame');
      PlaceLaw(h, k, i, slot, frame', BlockLists());
      PlaceTemps(h, k, i, slot, frame');
      LastEntered(b, i, slot, frame');
      buffers := buffers[k := Buffer(b.slots[i := slot], b.filled[i := true], b.frames[i / 2 := frame'],
                                     if i / 2 == b.index then b.index + 1 else b.index)];
      dev.SetVpn(lpn, Buffered(k.0, k.1, i));
      assert dev.table == h.flash.table[lpn := Buffered(k.0, k.1, i)];
      assert State() == Placing(h, k, i, slot, frame');
      PlacingLists(h, k, i, slot, frame', BlockLists());
    }

    // ---------------------------------------------- writing the buffer

    // The next superpage of a bank for data or for temporary pages.
    method Allocate(bank: int, kind: WriteType) returns (vpn: int)
      requires Lawful() && bank in lists && bank in cursors
      requires Allottable(dev.State(), bank, lists[bank], cursors[bank], kind)
      modifies this`lists, this`cursors, dev
      ensures Half(State(), BlockLists(), bank, kind, vpn) && SameReads(old(State()), State())
      ensures TempsKept(old(State()), State(), {})
      ensures lists == old(lists)[bank := lists[bank]] && cursors == old(cursors)[bank := cursors[bank]]
      ensures Assigned(old(dev.State()), bank, old(lists)[bank], old(cursors)[bank], kind, vpn, lists[bank],
        cursors[bank])
    {
      if kind == SW {
        vpn := AllocateData(bank);
      } else {
        vpn := AllocateLog(bank);
      }
    }

    // assign_new_write_vpn, on the bank's own lists and cursors.
    method AllocateData(bank: int) returns (vpn: int)
      requires Lawful() && bank in lists && bank in cursors
      requires Allottable(dev.State(), bank, lists[bank], cursors[bank], SW)
      modifies this`lists, this`cursors, dev
      ensures Half(State(), BlockLists(), bank, SW, vpn) && SameReads(old(State()), State())
      ensures TempsKept(old(State()), State(), {})
      ensures lists == old(lists)[bank := lists[bank]] && cursors == old(cursors)[bank := cursors[bank]]
      ensures Assigned(old(dev.State()), bank, old(lists)[bank], old(cursors)[bank], SW, vpn, lists[bank],
        cursors[bank])
    {
      hide Law, Half, BankOk, Pending, MeaningKept, Places, Apart, Reshuffled, Apply, Allottable, Reachable;
      ghost var h, ls, b := State(), BlockLists(), lists[bank];
      BankReady(h, ls, bank);
      var c;
      vpn, c := NextData(bank);
      ghost var b', s := c.Lists(b), dev.State();
      lists := lists[bank := lists[bank].(free := c.freeList, data := c.dataList, rw := c.rwList, gc := c.Empty())];
      cursors := cursors[bank := Cursors(c.cur, c.curRW, c.curJN, c.curGc, c.startedSW, c.startedRW)];
      AllocatedSW(h, s, ls, bank, b', c.Writing(), 0);
      LawTemps(h, s, ls, bank);
    }

    method NextData(bank: int) returns (vpn: int, c: GC.Collector)
      requires bank in lists && bank in cursors && |lists[bank].gc| <= 1 && VC_MAX !in lists[bank].gc
      requires BankOk(dev.State(), bank, Trim(lists[bank]), cursors[bank])
      requires Allottable(dev.State(), bank, lists[bank], cursors[bank], SW)
      modifies dev
      ensures fresh(c) && c.cur == vpn
      ensures MeaningKept(old(dev.State()), dev.State(), Reachable(bank, lists[bank]))
      ensures Pending(dev.State(), bank, Trim(c.Lists(lists[bank])), c.Writing())
      ensures Reshuffled(lists[bank], c.Lists(lists[bank]), 0) && c.Lists(lists[bank]).rw == lists[bank].rw
      ensures Assigned(old(dev.State()), bank, lists[bank], cursors[bank], SW, vpn, c.Lists(lists[bank]), c.Writing())
    {
      hide BankOk, Pending, MeaningKept, Places, Apart, Reshuffled, Assigned, Apply;
      ghost var s, b := dev.State(), lists[bank];
      c := NewCollector(bank);
      ghost var vt;
      vpn, vt := c.AssignNewWriteVpn();
      DataReshuffled(b, c.Lists(b), vt);
      DataAssigned(s, bank, b, cursors[bank], vpn, c.Lists(b), c.Writing(), vt);
    }

    // assign_new_write_vpn_RW, likewise.
    method AllocateLog(bank: int) returns (vpn: int)
      requires Lawful() && bank in lists && bank in cursors
      requires Allottable(dev.State(), bank, lists[bank], cursors[bank], RW)
      modifies this`lists, this`cursors, dev
      ensures Half(State(), BlockLists(), bank, RW, vpn) && SameReads(old(State()), State())
      ensures TempsKept(old(State()), State(), {})
      ensures lists == old(lists)[bank := lists[bank]] && cursors == old(cursors)[bank := cursors[bank]]
      ensures Assigned(old(dev.State()), bank, old(lists)[bank], old(cursors)[bank], RW, vpn, lists[bank],
        cursors[bank])
    {
      hide Law, Half, BankOk, RwPending, MeaningKept, FreeBlk, Reshuffled, Allottable, Apart, Assigned, EndOf, Apply;
      ghost var h, ls, b := State(), BlockLists(), lists[bank];
      BankReady(h, ls, bank);
      var c := NewCollector(bank);
      TrimAllottable(dev.State(), bank, b, cursors[bank], RW);
      ghost var e := c.Outcome();
      vpn := c.AllotLog();
      ghost var b', s := c.Lists(b), dev.State();
      lists := lists[bank := lists[bank].(free := c.freeList, data := c.dataList, rw := c.rwList, gc := c.Empty())];
      cursors := cursors[bank := Cursors(c.cur, c.curRW, c.curJN, c.curGc, c.startedSW, c.startedRW)];
      AllocatedRW(h, s, ls, bank, b', c.Writing(), vpn / PAGES_PER_BLK);
      LawTemps(h, s, ls, bank);
      LogAssigned(h.flash, bank, b, ls.cursors[bank], vpn, b', c.Writing(), e);
    }

    // The bank's collector works on the same tables, lists and cursors.
    method NewCollector(bank: int) returns (c: GC.Collector)
      requires bank in lists && bank in cursors && |lists[bank].gc| <= 1 && VC_MAX !in lists[bank].gc
      ensures fresh(c) && fresh(c.buf) && fresh(c.lpns) && c.dev == dev && c.bank == bank
      ensures c.Buffers() && c.index == 0 && c.buf != c.lpns
      ensures c.Lists(NOTHING) == Trim(lists[bank]) && c.Lists(lists[bank]) == lists[bank]
      ensures c.Writing() == cursors[bank]
    {
      var frames, addresses := new Data[SLOTS + 1], new int[SLOTS];
      c := new GC.Collector.On(dev, bank, lists[bank], cursors[bank], frames, addresses);
    }

    // The full buffer goes to flash; the temporary pages among it are those a
    // remap is still awaited for.
    method FlushBuffer(k: (int, WriteType)) returns (ghost vpn: int, ghost b': Bank)
      requires Lawful() && k in buffers && Full(buffers[k]) && k.0 in lists && k.0 in cursors
      requires Allottable(dev.State(), k.0, lists[k.0], cursors[k.0], k.1)
      modifies this`buffers, this`remained, this`inBuff, this`lists, this`cursors, dev
      ensures Lawful() && |dev.table| == |old(dev.table)|
      ensures Readable(old(State())) && Readable(State())
      ensures forall l :: 0 <= l < |dev.table| ==> Read(State(), l) == Read(old(State()), l)
      ensures buffers == old(buffers)[k := Emptied(old(buffers)[k])] && TempsKept(old(State()), State(), {})
      ensures k.0 in cursors
      ensures Assigned(old(dev.State()), k.0, old(lists)[k.0], old(cursors)[k.0], k.1, vpn, b', cursors[k.0])
      ensures WrittenAt(dev.State(), old(buffers)[k].slots, k.0, vpn)
      ensures AfterWrite(State(), old(BlockLists()), BlockLists(), k.0, b', k.1, vpn)
    {
      hide Assigned, WrittenAt;
      hide TempsKept;
      hide Inv, Sorted, SortedBut, TempIn, Readable, Read, Flushed, BanksOk, Known, Spared, Pending, RwPending;
      var page := Allocate(k.0, k.1);
      ghost var h, ls := State(), BlockLists();
      var b, p := Blk(k.0, page / PAGES_PER_BLK), page % PAGES_PER_BLK;
      vpn, b' := page, lists[k.0];
      HalfTarget(h, ls, k, vpn);
      WriteOut(k, b, p);
      FlushOk(h, State(), k, b, p);
      FlushTemps(h, State(), k, b, p);
      FlushedAt(h, State(), k, vpn);
      KeptThen(old(State()), h, State(), {}, {}, {});
      FlushSorted(h, State(), k, b, p, ls);
      FlushLaw(h, State(), ls, k, vpn);
      if k.1 == RW {
        InvParts(State());
        MoveIfDone(b, State());
        OneMoveLaw(State(), ls, BlockLists(), b);
      }
    }

    // Mapping, programming, and counting.
    method WriteOut(k: (int, WriteType), b: Blk, p: int)
      requires Inv(State()) && Target(State(), k, b, p)
      modifies this`buffers, this`remained, this`inBuff, dev
      ensures k in old(buffers) && b in old(dev.vcount) && (k.1 == RW ==> b in old(remained) && k.0 in old(inBuff))
      ensures Flushed(old(State()), State(), k, b, p) && buffers == old(buffers)[k := Emptied(old(buffers)[k])]
      ensures k.1 == RW ==> b in remained
    {
      hide Inv, Readable, Read, Filled;
      ghost var h := State();
      var old_ := buffers[k];
      SlotsOwned(h, k);
      InvSize(h);
      CountFits(h, k, b, p);
      StoreSlots(dev, old_.slots, b, p);
      buffers := buffers[k := Buffer(old_.slots, seq(SLOTS, _ => false), seq(PLANES, _ => 0), 0)];
      if k.1 == RW {
        remained := remained[b := remained[b] + SLOTS - inBuff[k.0]];
        inBuff := inBuff[k.0 := 0];
      }
    }

    // ---------------------------------------------- write_page

    // A page of data for `lpn`, in the lower or upper half of the host's frame.
    // If it fills the buffer, a superpage must be at hand once the old page of
    // `lpn` has been let go.
    method WritePage(lpn: int, high: bool, frame: int, d: Data, olpn: int, kind: WriteType,
                     bank: int) returns (ret: bool, ghost at: int, ghost vpn: int, ghost b': Bank)
      requires Lawful() && Quiet() && 0 <= lpn < |dev.table| && kind != JN && (kind == RW <==> lpn >= rwStart)
      requires (olpn == INVALID_LPN || 0 <= olpn < |dev.table|) && (kind != RW ==> olpn == INVALID_LPN)
      requires bank in lists && bank in cursors && (bank, kind) in buffers
      requires NewFrame(buffers[(bank, kind)], high, frame)
      requires !dev.table[lpn].Buffered? && !(kind == RW && olpn == INVALID_LPN) && LastHole(buffers[(bank, kind)]) ==>
        AllottableWithout(State(), BlockLists(), lpn, bank, kind)
      modifies this`buffers, this`remained, this`inBuff, this`lists, this`cursors, dev
      ensures Lawful() && Quiet() && Readable(old(State())) && Readable(State())
      ensures Updated(old(State()), State(), lpn,
        if kind == RW && olpn == INVALID_LPN && !old(dev.table)[lpn].Buffered? then NoData else Some(d))
      ensures ret <==>
        && !old(dev.table)[lpn].Buffered? && !(kind == RW && olpn == INVALID_LPN)
        && BufferShape(old(buffers)[(bank, kind)]) && OwnFrame(old(buffers)[(bank, kind)], high, frame)
      ensures !old(dev.table)[lpn].Buffered? && !(kind == RW && olpn == INVALID_LPN) ==>
        && BufferShape(old(buffers)[(bank, kind)]) && Seat(old(buffers)[(bank, kind)], high, frame, at, !ret)
        && var e := SeatTaken(old(buffers)[(bank, kind)], at, Slot(lpn, olpn, d), frame, !ret);
           if !Full(e) then
             && buffers == old(buffers)[(bank, kind) := e] && dev.table[lpn] == Buffered(bank, kind, at)
             && BlockLists() == ListsWithout(old(State()), old(BlockLists()), lpn)
           else
             && buffers == old(buffers)[(bank, kind) := Emptied(e)] && WrittenAt(dev.State(), e.slots, bank, vpn)
             && AssignedWithout(old(State()), old(BlockLists()), State(), BlockLists(), lpn, bank, kind, vpn, b')
      ensures TempsKept(old(State()), State(), {lpn})
      ensures kind == RW ==> WrittenDown(old(State()), State(), lpn, olpn, d)
      ensures kind == RW && olpn != INVALID_LPN ==>
        (Agreed(State(), lpn, olpn) <==> !old(dev.table)[lpn].Buffered? || old(Agreed(State(), lpn, olpn)))
    {
      hide TempsKept, Record, Agreed;
      hide Law, Readable, Read, BufferShape, NewFrame, OwnFrame, TempIn, Allottable, LastHole, Seat, WrittenAt,
        AfterWrite,
           Assigned;
      ghost var h, ls := State(), BlockLists();
      at, vpn, b' := 0, 0, NOTHING;
      LawParts(h, ls);
      var old_ := dev.GetVpn(lpn);
      if old_.Buffered? {
        OverwriteBuffered(lpn, d);
        if kind == RW {
          LawParts(State(), BlockLists());
          AgreedAfterWrite(h, State(), lpn, olpn, d);
        }
        ret := false;
        return;
      }
      ghost var g := LetGo(lpn, kind);
      if kind == RW && olpn == INVALID_LPN {
        // padding: the temporary address has no page any more
        dev.SetVpn(lpn, Unmapped);
        ret := false;
        return;
      }
      WithoutKeys(h, ls, lpn, bank);
      ret, at, vpn, b' := EnterPage(lpn, high, frame, d, olpn, kind, bank, g);
      KeptThen(h, g, State(), {lpn}, {lpn}, {lpn});
      if kind == RW {
        LawParts(State(), BlockLists());
        AgreedAfterWrite(h, State(), lpn, olpn, d);
      }
    }

    // The second half: the page enters the buffer, which is written if it is full.
    method EnterPage(lpn: int, high: bool, frame: int, d: Data, olpn: int, kind: WriteType, bank: int, ghost g: Host)
      returns (ret: bool, ghost at: int, ghost vpn: int, ghost b': Bank)
      requires 0 <= lpn < |dev.table| && g == State().(flash := dev.State().(table := dev.table[lpn := Unmapped]))
      requires Law(g, BlockLists()) && Quiet() && bank in lists && bank in cursors && (bank, kind) in buffers
      requires kind != JN && (kind == RW <==> lpn >= rwStart)
      requires (olpn == INVALID_LPN || 0 <= olpn < |dev.table|) && (kind != RW ==> olpn == INVALID_LPN)
      requires NewFrame(buffers[(bank, kind)], high, frame)
      requires LastHole(buffers[(bank, kind)]) ==> Allottable(g.flash, bank, lists[bank], cursors[bank], kind)
      modifies this`buffers, this`remained, this`inBuff, this`lists, this`cursors, dev
      ensures Lawful() && Quiet() && Readable(g) && Readable(State()) && Updated(g, State(), lpn, Some(d))
      ensures BufferShape(old(buffers)[(bank, kind)]) && Seat(old(buffers)[(bank, kind)], high, frame, at, !ret)
      ensures ret <==> OwnFrame(old(buffers)[(bank, kind)], high, frame)
      ensures var e := SeatTaken(old(buffers)[(bank, kind)], at, Slot(lpn, olpn, d), frame, !ret);
        if !Full(e) then
          && buffers == old(buffers)[(bank, kind) := e] && dev.table[lpn] == Buffered(bank, kind, at)
          && BlockLists() == old(BlockLists())
        else
          && buffers == old(buffers)[(bank, kind) := Emptied(e)] && WrittenAt(dev.State(), e.slots, bank, vpn)
          && bank in cursors && Assigned(g.flash, bank, old(lists)[bank], old(cursors)[bank], kind, vpn, b',
            cursors[bank])
          && AfterWrite(State(), old(BlockLists()), BlockLists(), bank, b', kind, vpn)
      ensures TempsKept(g, State(), {lpn})
      ensures kind == RW ==> dev.table[lpn] != Unmapped && Record(State(), lpn) == Slot(lpn, olpn, d)
    {
      hide Law, Readable, Read, BufferShape, NewFrame, OwnFrame, TempIn, Allottable, LastHole, Seat, WrittenAt,
        AfterWrite,
           Assigned, TempsKept, Record;
      ghost var ls0 := BlockLists();
      var hole;
      vpn, b' := 0, NOTHING;
      hole, at := PutSlot((bank, kind), lpn, olpn, high, frame, d, g);
      ret := !hole;
      if Full(buffers[(bank, kind)]) {
        AllottableKept(g.flash, dev.State(), bank, lists[bank], cursors[bank], kind);
        ghost var full := State();
        vpn, b' := FlushBuffer((bank, kind));
        AssignedKept(g.flash, full.flash, bank, ls0, vpn, b', cursors[bank], kind);
        KeptThen(g, full, State(), {lpn}, {}, {lpn});
        if kind == RW { RecordKept(full, State(), {}, lpn); }
        assert !Full(buffers[(bank, kind)]) by { assert !buffers[(bank, kind)].filled[0]; }
      }
    }

    // The first half of write_page: the page in flash is let go, if there is one.
    method LetGo(lpn: int, kind: WriteType) returns (ghost g: Host)
      requires Lawful() && 0 <= lpn < |dev.table| && !dev.table[lpn].Buffered? && (kind == RW <==> lpn >= rwStart)
      modifies this`remained, this`lists, dev`bits, dev`vcount
      ensures g == State().(flash := dev.State().(table := dev.table[lpn := Unmapped]))
      ensures Law(g, BlockLists()) && BlockLists() == ListsWithout(old(State()), old(BlockLists()), lpn)
      ensures Inv(old(State())) && g == StateWithout(old(State()), lpn)
      ensures Readable(old(State())) && Readable(g) && Updated(old(State()), g, lpn, NoData)
      ensures TempsKept(old(State()), g, {lpn})
    {
      hide TempsKept;
      hide Inv, Sorted, Readable, Read, OneMove, TempIn, LiveIn, Spared, BanksOk, Known;
      ghost var h := State();
      InvParts(h);
      var old_ := dev.GetVpn(lpn);
      if old_.Nand? {
        ReleaseKnown(h, lpn);
        ReleaseOk(h, lpn);
        ReleaseTemps(h, lpn);
        g := Released(h, lpn);
        DropOld(lpn, kind);
      } else {
        assert dev.table == dev.table[lpn := Unmapped];
        g := h;
        UpdatedSelf(h, lpn);
        KeptAll(h, {lpn});
      }
    }

    // A page still in a buffer is overwritten there.
    method OverwriteBuffered(lpn: int, d: Data)
      requires Lawful() && Quiet() && 0 <= lpn < |dev.table| && dev.table[lpn].Buffered?
      modifies this`buffers
      ensures Lawful() && Quiet() && Readable(old(State())) && Readable(State())
      ensures Updated(old(State()), State(), lpn, Some(d))
      ensures TempsKept(old(State()), State(), {lpn}) && dev.table == old(dev.table)
      ensures Record(State(), lpn) == old(Record(State(), lpn)).(data := d)
    {
      hide TempsKept, Record;
      hide Sorted, TempIn, Tallied, Remaining, InBuffCounted, Shaped, Placed, Injective, Addressed, Spared,
           BanksOk, Known;
      ghost var h := State();
      InvReadable(h);
      OverwriteOk(h, lpn, d);
      OverwriteLaw(h, lpn, d, BlockLists());
      OverwriteTemps(h, lpn, d);
      var p := dev.GetVpn(lpn);
      var b := buffers[(p.bank, p.kind)];
      buffers := buffers[(p.bank, p.kind) := b.(slots := b.slots[p.slot := b.slots[p.slot].(data := d)])];
      assert State() == Overwritten(h, lpn, d);
      OverwriteSorted(h, State(), BlockLists());
    }

    // ---------------------------------------------- __do_remap

    // One pair of a remap entry: home address `o` takes over the page of the
    // temporary address `t`.
    method RemapOne(t: int, o: int)
      requires Valid() && rwStart <= t < |dev.table| && 0 <= o < rwStart && o < |dev.table| && dev.table[t] != Unmapped
      modifies this`buffers, this`remained, this`inBuff, this`lists, dev
      ensures Inv(old(State())) && Temp(old(State()), t)
      ensures Valid() && State() == RemapPair(old(State()), t, o)
      ensures old(Lawful() && Agreed(State(), t, o)) ==> Lawful()
      ensures old(Quiet()) ==> Quiet()
      ensures TempsKept(old(State()), State(), {t})
      ensures BlockLists() == ListsWithout(old(State()), old(BlockLists()), t)
      ensures old(Readable(State()) && Record(State(), t).remap != INVALID_LPN && !Agreed(State(), t, o)) ==> !Lawful()
    {
      hide TempsKept;
      hide Inv, Sorted, SortedBut, TempIn, LiveIn, Law, OneMove, Agreed, Full, RemapPair, GivenUp, WithReq;
      ghost var h, ls := State(), BlockLists();
      ghost var h' := RemapPair(h, t, o);
      InvParts(h);
      RemapPairOk(h, t, o);
      PairKeepsTemps(h, t, o);
      var place := dev.GetVpn(t);
      var old_ := dev.GetVpn(o);
      dev.SetVpn(t, Unmapped);
      TakeOver(place, t, o, h, h');
      PairBuffers(h, t, o);
      PairFlash(h, t, o);
      DropHome(old_, o, h, GivenUp(h, o));
      dev.SetVpn(o, place);
      QuietKept(h, t, o);
      assert State() == h';
      if Law(h, ls) && Agreed(h, t, o) {
        RemapLaw(h, t, o, ls, BlockLists());
      }
      if Record(h, t).remap != INVALID_LPN && !Agreed(h, t, o) {
        PairNeedsRecord(h, t, o);
        NotLawful(h', BlockLists());
      }
    }

    lemma NotLawful(h: Host, ls: Lists)
      requires Inv(h) && !Spared(h)
      ensures !Law(h, ls)
    {
    }

    lemma RemapLaw(h: Host, t: int, o: int, ls: Lists, ls': Lists)
      requires Law(h, ls) && Temp(h, t) && 0 <= t && 0 <= o < h.rwStart && o < |h.flash.table|
      requires h.flash.table[t] != Unmapped
      requires Agreed(h, t, o) && Sorted(RemapPair(h, t, o), ls')
      requires OneMove(RemapPair(h, t, o), ls, ls', if h.flash.table[t].Nand? then h.flash.table[t].blk else Blk(0, 0))
      ensures Law(RemapPair(h, t, o), ls')
    {
      hide Inv, Sorted, Spared, BanksOk, Known, OneMove, Agreed, RemapPair;
      PairLaw(h, t, o, ls);
      OneMoveLaw(RemapPair(h, t, o), ls, ls', if h.flash.table[t].Nand? then h.flash.table[t].blk else Blk(0, 0));
    }

    // __do_remap: the pairs of one remap entry, in order.
    method DoRemap(pairs: seq<(int, int)>, core: int)
      requires Valid() && Quiet() && EntryOk(State(), pairs, core) && MappedFrom(State(), pairs, core, 0)
      modifies this`buffers, this`remained, this`inBuff, this`lists, dev
      ensures Valid() && Quiet() && Readable(old(State())) && Readable(State())
      ensures old(Lawful() && AgreedFrom(State(), pairs, core, 0)) ==> Lawful()
      ensures PairsIn(pairs, core, |old(dev.table)|) && Reads(State()) == Composed(Reads(old(State())), pairs, core)
      ensures TempsKept(old(State()), State(), Sources(pairs, core))
      ensures forall i :: 0 <= i < |pairs| && Mine(pairs[i], core) ==>
        0 <= pairs[i].0 / CORES < |dev.table| && dev.table[pairs[i].0 / CORES] == Unmapped
    {
      hide TempsKept;
      hide Inv, Sorted, Readable, Read, HandedOver, EntryOk, MappedFrom, PairsIn, Temp, Law, Agreed, AgreedFrom,
           ListsWithout, Record, Composed, RemapPair;
      InvParts(State());
      ghost var r := Reads(State());
      KeptAll(State(), Sources(pairs, core));
      assert pairs[..0] == [];
      EmptyPairs(r, core);
      for i := 0 to |pairs|
        invariant Valid() && Quiet() && Readable(State()) && EntryOk(State(), pairs, core)
        invariant MappedFrom(State(), pairs, core, i)
        invariant PairsIn(pairs[..i], core, |r|) && Reads(State()) == Composed(r, pairs[..i], core)
        invariant old(Lawful() && AgreedFrom(State(), pairs, core, 0)) ==>
          Lawful() && AgreedFrom(State(), pairs, core, i)
        invariant TempsKept(old(State()), State(), Sources(pairs, core))
        invariant forall j :: 0 <= j < i && Mine(pairs[j], core) ==>
          rwStart <= pairs[j].0 / CORES < |dev.table| && dev.table[pairs[j].0 / CORES] == Unmapped
      {
        ghost var h := State();
        if Mine(pairs[i], core) {
          PairOk(h, pairs, core, i);
          if AgreedFrom(h, pairs, core, i) { AgreedNext(h, pairs, core, i); }
          RemapOne(pairs[i].0 / CORES, pairs[i].1 / CORES);
          assert pairs[i].0 / CORES in Sources(pairs, core);
          KeptThen(old(State()), h, State(), Sources(pairs, core), {pairs[i].0 / CORES}, Sources(pairs, core));
          RemapPairOk(h, pairs[i].0 / CORES, pairs[i].1 / CORES);
          PairFlash(h, pairs[i].0 / CORES, pairs[i].1 / CORES);
        }
        if !Mine(pairs[i], core) { AgreedSkip(h, pairs, core, i); }
        OneStep(h, State(), r, pairs, core, i);
      }
      assert pairs[..|pairs|] == pairs;
    }

    // A temporary page is written with its home address and remapped to it: the
    // law holds, the home address reads the data, and nothing else has changed.
    method WriteThenRemap(t: int, high: bool, frame: int, d: Data, o: int, bank: int, core: int)
      requires Lawful() && Quiet() && rwStart <= t < |dev.table| && 0 <= o < rwStart && o < |dev.table|
      requires 0 <= core < CORES
      requires bank in lists && bank in cursors && (bank, RW) in buffers && NewFrame(buffers[(bank, RW)], high, frame)
      requires dev.table[t].Buffered? ==> Agreed(State(), t, o)
      requires !dev.table[t].Buffered? && LastHole(buffers[(bank, RW)]) ==>
        AllottableWithout(State(), BlockLists(), t, bank, RW)
      modifies this`buffers, this`remained, this`inBuff, this`lists, this`cursors, dev
      ensures Lawful() && Quiet() && Readable(old(State())) && Readable(State())
      ensures Reads(State()) == Reads(old(State()))[o := Some(d)][t := NoData]
    {
      hide Inv, Sorted, Readable, Read, Law, Agreed, TempsKept, WrittenDown, AllottableWithout, NewFrame,
        LastHole, Seat,
           WrittenAt, AssignedWithout, SeatTaken, EntryOk, MappedFrom, AgreedFrom, Composed, OwnFrame, Full;
      ghost var h := State();
      LawParts(h, BlockLists());
      var ret;
      ghost var at, vpn, b';
      ret, at, vpn, b' := WritePage(t, high, frame, d, o, RW, bank);
      ghost var g := State();
      LawParts(g, BlockLists());
      WrittenMapped(h, g, t, o, d);
      var pair := (t * CORES + core, o * CORES + core);
      OnePair(g, pair, t, o, core);
      DoRemap([pair], core);
      OneComposed(Reads(g), pair, t, o, core);
      assert Reads(g)[t] == Some(d);
      assert Reads(g) == Reads(h)[t := Some(d)];
    }

    // The temporary page passes to `o`: in a buffer slot by its address, in
    // flash by the count of the remaps its block waits for.
    method TakeOver(place: Place, t: int, o: int, ghost h: Host, ghost h': Host)
      requires Inv(h) && Temp(h, t) && 0 <= t && 0 <= o < h.rwStart && o < |h.flash.table|
      requires h.flash.table[t] != Unmapped
      requires place == h.flash.table[t] && h' == RemapPair(h, t, o) && Sorted(h, BlockLists())
      requires buffers == h.buffers && remained == h.remained && inBuff == h.inBuff
      modifies this`buffers, this`remained, this`inBuff, this`lists
      ensures remained == h'.remained && inBuff == h'.inBuff && Sorted(h', BlockLists())
      ensures OneMove(h', old(BlockLists()), BlockLists(), if place.Nand? then place.blk else Blk(0, 0))
      ensures BlockLists() == ListsWithout(h, old(BlockLists()), t)
      ensures place.Buffered? ==>
        (place.bank, place.kind) in h.buffers && 0 <= place.slot < |h.buffers[(place.bank, place.kind)].slots|
      ensures buffers == if place.Buffered? then WithReq(h.buffers, place, o) else h.buffers
    {
      hide Inv, Sorted, SortedBut, TempIn, LiveIn;
      HandKnown(h, t);
      PairCounts(h, t, o);
      PairTemps(h, t, o);
      InvParts(h);
      if place.Buffered? {
        SlotKnown(h, t);
        var b := buffers[(place.bank, place.kind)];
        var slot := b.slots[place.slot].(req := o);
        buffers := buffers[(place.bank, place.kind) := b.(slots := b.slots[place.slot := slot])];
        // need to decrease the remained count when the buffer is written
        inBuff := inBuff[place.bank := inBuff[place.bank] + 1];
        SortedSame(h, h', BlockLists());
      } else {
        remained := remained[place.blk := remained[place.blk] - 1];
        TempListed(h, t);
        SortedWeak(h, BlockLists(), place.blk);
        SortedKept(h, h', BlockLists(), place.blk);
        RemapPairOk(h, t, o);
        InvParts(h');
        MoveIfDone(place.blk, h');
      }
    }

    // The page `o` had before is given up.
    method DropHome(place: Place, o: int, ghost h: Host, ghost g: Host)
      requires Inv(h) && 0 <= o < h.rwStart && o < |h.flash.table| && place == h.flash.table[o] && g == GivenUp(h, o)
      requires dev.bits == h.flash.bits && dev.vcount == h.flash.vcount
      requires place.Buffered? ==>
        (place.bank, place.kind) in buffers && 0 <= place.slot < |buffers[(place.bank, place.kind)].slots|
      modifies this`buffers, dev`bits, dev`vcount
      ensures dev.bits == g.flash.bits && dev.vcount == g.flash.vcount
      ensures buffers == if place.Buffered? then WithReq(old(buffers), place, INVALID_LPN) else old(buffers)
    {
      hide Inv, LiveIn, TempIn;
      match place {
        case Unmapped =>
        case Buffered(_, _, _) =>
          var b := buffers[(place.bank, place.kind)];
          var slot := b.slots[place.slot].(req := INVALID_LPN);
          buffers := buffers[(place.bank, place.kind) := b.(slots := b.slots[place.slot := slot])];
        case Nand(_, _, _) =>
          ReleaseKnown(h, o);
          dev.InvalidateVpn(place);
          var v := dev.GetVcount(place.blk);
          dev.SetVcount(place.blk, v - 1);
      }
    }
  }

  // The upper half of the frame entered last.
  ghost predicate Tail(b: Buffer, high: bool, frame: int)
    requires BufferShape(b)
  {
    b.index > 0 && high && frame == b.frames[b.index - 1]
  }

  // The page stays in the host's own frame; otherwise it is copied into a hole.
  ghost predicate OwnFrame(b: Buffer, high: bool, frame: int)
    requires BufferShape(b)
  {
    b.index < PLANES || Tail(b, high, frame)
  }

  // The half of the buffer a page goes to: its own half of the frame entered last
  // if that is its frame, or of a new frame; with all frames in use the first
  // free half, whose other half then is filled.
  ghost predicate Seat(b: Buffer, high: bool, frame: int, i: int, hole: bool)
    requires BufferShape(b)
  {
    && 0 <= i < SLOTS && i / 2 <= b.index && !b.filled[i]
    && (if hole then
          && b.index == PLANES && !(high && frame == b.frames[PLANES - 1])
          && (forall j :: 0 <= j < i ==> b.filled[j])
          && b.filled[if i % 2 == 0 then i + 1 else i - 1]
        else
          && i % 2 == (if high then 1 else 0)
          && (if 0 < b.index && high && frame == b.frames[b.index - 1] then i / 2 == b.index - 1
              else i / 2 == b.index && b.index < PLANES))
  }

  ghost function SeatTaken(b: Buffer, i: int, slot: Slot, frame: int, hole: bool): Buffer
    requires BufferShape(b) && 0 <= i < SLOTS && i / 2 <= b.index
  {
    Entered(b, i, slot, if hole then b.frames[if i / 2 < PLANES then i / 2 else 0] else frame)
  }

  // The slots are in the superpage `vpn` of bank `n`.
  ghost predicate WrittenAt(s: Flash, slots: seq<Slot>, n: int, vpn: int) {
    var b, p := Blk(n, vpn / PAGES_PER_BLK), vpn % PAGES_PER_BLK;
    && (b, p) in s.nand && s.nand[(b, p)] == Cells(slots)
    && (forall i :: i in Named(slots) ==>
          0 <= slots[i].req < |s.table| && s.table[slots[i].req] == Nand(b, p, i))
  }

  // The lists of a bank after one of its superpages has been written: a log
  // block that no longer waits for a remap leaves the log list.
  ghost predicate AfterWrite(h: Host, ls: Lists, ls': Lists, n: int, b': Bank, kind: WriteType, vpn: int)
    requires n in ls.banks && n in ls'.cursors
  {
    var x, grown := Blk(n, vpn / PAGES_PER_BLK), Lists(ls.banks[n := b'], ls'.cursors);
    && ls'.cursors == ls.cursors[n := ls'.cursors[n]]
    && (if kind == RW then ls'.cursors[n].rw else ls'.cursors[n].sw) == vpn
    && (if kind == RW && x in h.remained && h.remained[x] == 0 && x.no in b'.rw && !Ongoing(ls'.cursors[n].rw, x.no)
        then ls' == Moved(grown, x) else ls' == grown)
  }

  // A frame enters a buffer once, but for the upper half that follows its lower
  // half at once.
  ghost predicate NewFrame(b: Buffer, high: bool, frame: int) {
    0 < b.index <= |b.frames| && b.index * 2 <= |b.filled| && high && frame == b.frames[b.index - 1] ==>
      !b.filled[b.index * 2 - 1]
  }

  // One more page fills the buffer.
  ghost predicate LastHole(b: Buffer) {
    |b.filled| == SLOTS && exists i :: 0 <= i < SLOTS && !b.filled[i] && forall j :: 0 <= j < SLOTS && j != i ==>
      b.filled[j]
  }

  lemma LastEntered(b: Buffer, i: int, slot: Slot, frame: int)
    requires BufferShape(b) && 0 <= i < SLOTS && i / 2 <= b.index && !b.filled[i]
    ensures Full(Entered(b, i, slot, frame)) ==> LastHole(b)
  {
    if Full(Entered(b, i, slot, frame)) {
      forall j | 0 <= j < SLOTS && j != i
        ensures b.filled[j]
      {
        assert Entered(b, i, slot, frame).filled[j];
      }
    }
  }

  // The assignment once the page of `lpn` in flash has been let go.
  ghost predicate AssignedWithout(h: Host, ls: Lists, h': Host, ls': Lists, lpn: int, n: int, kind: WriteType, vpn: int,
                                  b': Bank)
    requires Inv(h) && 0 <= lpn < |h.flash.table|
  {
    var g, lg := StateWithout(h, lpn), ListsWithout(h, ls, lpn);
    && n in lg.banks && n in lg.cursors && n in ls'.cursors
    && Assigned(g.flash, n, lg.banks[n], lg.cursors[n], kind, vpn, b', ls'.cursors[n])
    && AfterWrite(h', lg, ls', n, b', kind, vpn)
  }

  lemma AssignedKept(s: Flash, s': Flash, n: int, ls: Lists, vpn: int, b': Bank, c': Cursors, kind: WriteType)
    requires n in ls.banks && n in ls.cursors && s'.vcount == s.vcount
    ensures Assigned(s', n, ls.banks[n], ls.cursors[n], kind, vpn, b', c') ==>
      Assigned(s, n, ls.banks[n], ls.cursors[n], kind, vpn, b', c')
  {
    assert Counts(s', n, ls.banks[n].data) == Counts(s, n, ls.banks[n].data);
  }

  lemma FlushedAt(h: Host, h': Host, k: (int, WriteType), vpn: int)
    requires Inv(h) && k in h.buffers && Full(h.buffers[k])
    requires Target(h, k, Blk(k.0, vpn / PAGES_PER_BLK), vpn % PAGES_PER_BLK)
    requires Flushed(h, h', k, Blk(k.0, vpn / PAGES_PER_BLK), vpn % PAGES_PER_BLK)
    ensures WrittenAt(h'.flash, h.buffers[k].slots, k.0, vpn)
  {
    hide Inv;
    SlotsOwned(h, k);
  }

  lemma LawTemps(h: Host, s: Flash, ls: Lists, n: int)
    requires Law(h, ls) && n in ls.banks && MeaningKept(h.flash, s, Reachable(n, ls.banks[n]))
    requires Readable(h.(flash := s))
    ensures TempsKept(h, h.(flash := s), {})
  {
    hide MeaningKept, TempsKept, Apart;
    AllocKeepsTemps(h, s, ls, n);
  }

  // The state and the lists once the page of `lpn` in flash has been let go.
  ghost function StateWithout(h: Host, lpn: int): Host
    requires Inv(h) && 0 <= lpn < |h.flash.table|
  {
    if h.flash.table[lpn].Nand? then ReleaseKnown(h, lpn); Released(h, lpn) else h
  }

  ghost function ListsWithout(h: Host, ls: Lists, lpn: int): Lists {
    if !(0 <= lpn < |h.flash.table|) || !h.flash.table[lpn].Nand? || lpn < h.rwStart then ls
    else
      var b := h.flash.table[lpn].blk;
      if b in h.remained && h.remained[b] == 1 && b.bank in ls.banks && b.bank in ls.cursors
        && b.no in ls.banks[b.bank].rw
         && !Ongoing(ls.cursors[b.bank].rw, b.no)
      then Moved(ls, b) else ls
  }

  // A superpage of the bank is at hand by then.
  ghost predicate AllottableWithout(h: Host, ls: Lists, lpn: int, n: int, kind: WriteType)
    requires Inv(h) && 0 <= lpn < |h.flash.table|
  {
    var ls' := ListsWithout(h, ls, lpn);
    && n in ls'.banks && n in ls'.cursors
    && Allottable(StateWithout(h, lpn).flash, n, ls'.banks[n], ls'.cursors[n], kind)
  }

  lemma WithoutKeys(h: Host, ls: Lists, lpn: int, n: int)
    requires n in ls.banks && n in ls.cursors
    ensures n in ListsWithout(h, ls, lpn).banks && n in ListsWithout(h, ls, lpn).cursors
  {
  }

  // Releasing a page touches the temporary pages of its own block only.
  lemma ReleaseLists(h: Host, l: int)
    requires Inv(h) && 0 <= l < |h.flash.table| && h.flash.table[l].Nand?
    requires h.flash.table[l].blk in h.flash.vcount && (Temp(h, l) ==> h.flash.table[l].blk in h.remained)
    ensures forall b :: b != h.flash.table[l].blk || l < h.rwStart ==>
      TempIn(Released(h, l).flash.table, h.rwStart, b) == TempIn(h.flash.table, h.rwStart, b)
  {
  }

  lemma PlacingLists(h: Host, k: (int, WriteType), i: int, slot: Slot, frame: int, ls: Lists)
    requires k in h.buffers && BufferShape(h.buffers[k]) && 0 <= i < SLOTS && i / 2 <= h.buffers[k].index
    requires 0 <= h.rwStart
    requires 0 <= slot.req < |h.flash.table| && h.flash.table[slot.req] == Unmapped && Sorted(h, ls)
    ensures Sorted(Placing(h, k, i, slot, frame), ls)
    ensures forall b ::
      TempIn(Placing(h, k, i, slot, frame).flash.table, h.rwStart, b) == TempIn(h.flash.table, h.rwStart, b)
  {
  }

  lemma CountFits(h: Host, k: (int, WriteType), b: Blk, p: int)
    requires Inv(h) && Target(h, k, b, p)
    ensures 0 <= h.flash.vcount[b] + |Named(h.buffers[k].slots)| <= BLK_LPAGES
  {
    hide Remaining, InBuffCounted, Owned, Addressed;
    RoomInBlock(h.flash, b, p);
    NamedFew(h.buffers[k].slots);
  }

  lemma InvSize(h: Host)
    requires Inv(h)
    ensures |h.flash.table| <= INVALID_LPN && forall k :: k in h.buffers ==> BufferShape(h.buffers[k])
  {
  }

  lemma FlushSorted(h: Host, h': Host, k: (int, WriteType), b: Blk, p: int, ls: Lists)
    requires Inv(h) && Target(h, k, b, p) && Flushed(h, h', k, b, p)
    requires if k.1 == RW then SortedBut(h, ls, b) && b.bank in ls.banks && b.no in ls.banks[b.bank].rw
      else Sorted(h, ls)
    ensures if k.1 == RW then SortedBut(h', ls, b) else Sorted(h', ls)
  {
    hide Sorted, SortedBut, Tallied, Remaining, Injective, Addressed, Shaped, Placed;
    var slots := h.buffers[k].slots;
    SlotsOwned(h, k);
    TempsAndRemapped(h, k);
    forall c: Blk
      ensures c != b || k.1 != RW ==> TempIn(h'.flash.table, h.rwStart, c) == TempIn(h.flash.table, h.rwStart, c)
    {
      TempAfter(h.flash.table, h'.flash.table, slots, b, p, h.rwStart, c);
    }
    if k.1 == RW { SortedKept(h, h', ls, b); } else { SortedSame(h, h', ls); }
  }

  lemma OverwriteSorted(h: Host, h': Host, ls: Lists)
    requires Sorted(h, ls) && h'.flash == h.flash && h'.rwStart == h.rwStart >= 0
    ensures Sorted(h', ls)
  {
  }

  lemma UpdatedSelf(h: Host, l: int)
    requires Readable(h) && 0 <= l < |h.flash.table| && h.flash.table[l] == Unmapped
    ensures Updated(h, h, l, NoData)
  {
  }

  lemma EmptyPairs(r: seq<Reading>, core: int)
    ensures PairsIn([], core, |r|) && Composed(r, [], core) == r
  {
  }

  lemma PairOk(h: Host, pairs: seq<(int, int)>, core: int, i: int)
    requires EntryOk(h, pairs, core) && 0 <= i < |pairs| && MappedFrom(h, pairs, core, i) && Mine(pairs[i], core)
    ensures var t, o := pairs[i].0 / CORES, pairs[i].1 / CORES;
      h.rwStart <= t < |h.flash.table| && Temp(h, t) && 0 <= o < h.rwStart && o < |h.flash.table| && 0 <= t
        && h.flash.table[t] != Unmapped
  {
  }

  // A pair fills and empties no slot.
  lemma QuietKept(h: Host, t: int, o: int)
    requires Inv(h) && Temp(h, t) && 0 <= t && 0 <= o < h.rwStart && o < |h.flash.table| && h.flash.table[t] != Unmapped
    ensures var h' := RemapPair(h, t, o);
      h'.buffers.Keys == h.buffers.Keys && forall k :: k in h.buffers ==> (Full(h'.buffers[k]) <==> Full(h.buffers[k]))
  {
    hide Inv, Owned;
    GivenUpOk(h, o);
    HandKnown(GivenUp(h, o), t);
  }

  lemma SlotKnown(h: Host, l: int)
    requires Inv(h) && 0 <= l < |h.flash.table| && h.flash.table[l].Buffered?
    ensures var p := h.flash.table[l];
      (p.bank, p.kind) in h.buffers && 0 <= p.slot < |h.buffers[(p.bank, p.kind)].slots| == SLOTS
  {
  }

  // What one pair does to the counts of outstanding remaps.
  lemma PairCounts(h: Host, t: int, o: int)
    requires Inv(h) && Temp(h, t) && 0 <= t && 0 <= o < h.rwStart && o < |h.flash.table| && h.flash.table[t] != Unmapped
    ensures var h', p := RemapPair(h, t, o), h.flash.table[t];
      && (p.Nand? ==> p.blk in h.remained && h'.remained == h.remained[p.blk := h.remained[p.blk] - 1]
                      && h'.inBuff == h.inBuff)
      && (p.Buffered? ==> p.bank in h.inBuff && h'.remained == h.remained
                          && h'.inBuff == h.inBuff[p.bank := h.inBuff[p.bank] + 1])
      && h'.rwStart == h.rwStart && |h'.flash.table| == |h.flash.table|
  {
    hide Inv, LiveIn, TempIn;
    HandKnown(h, t);
    GivenUpOk(h, o);
  }

  lemma PairTemps(h: Host, t: int, o: int)
    requires Inv(h) && Temp(h, t) && 0 <= t && 0 <= o < h.rwStart && o < |h.flash.table| && h.flash.table[t] != Unmapped
    ensures var h', p := RemapPair(h, t, o), h.flash.table[t];
      forall c :: !p.Nand? || c != p.blk ==> TempIn(h'.flash.table, h.rwStart, c) == TempIn(h.flash.table, h.rwStart, c)
  {
  }

  // The slots of `t` and of `o` differ, so their addresses change in any order.
  lemma PairBuffers(h: Host, t: int, o: int)
    requires Inv(h) && Temp(h, t) && 0 <= t && 0 <= o < h.rwStart && o < |h.flash.table| && h.flash.table[t] != Unmapped
    ensures var p, q := h.flash.table[t], h.flash.table[o];
      && (p.Buffered? ==> (p.bank, p.kind) in h.buffers && 0 <= p.slot < |h.buffers[(p.bank, p.kind)].slots|)
      && (var bs := if p.Buffered? then WithReq(h.buffers, p, o) else h.buffers;
          && (q.Buffered? ==> (q.bank, q.kind) in bs && 0 <= q.slot < |bs[(q.bank, q.kind)].slots|)
          && RemapPair(h, t, o).buffers == if q.Buffered? then WithReq(bs, q, INVALID_LPN) else bs)
  {
    hide Tallied, Remaining, InBuffCounted, Shaped, Placed, Injective, Addressed;
    var p, q := h.flash.table[t], h.flash.table[o];
    if p.Buffered? { SlotKnown(h, t); }
    if q.Buffered? { SlotKnown(h, o); }
    if p.Buffered? && q.Buffered? {
      assert SlotAt(h, p).req == t && SlotAt(h, q).req == o;
      Commute(h.buffers, p, o, q, INVALID_LPN);
    }
  }

  lemma Commute(bs: map<(int, WriteType), Buffer>, p: Place, x: int, q: Place, y: int)
    requires p.Buffered? && (p.bank, p.kind) in bs && 0 <= p.slot < |bs[(p.bank, p.kind)].slots|
    requires q.Buffered? && (q.bank, q.kind) in bs && 0 <= q.slot < |bs[(q.bank, q.kind)].slots| && p != q
    ensures (q.bank, q.kind) in WithReq(bs, p, x) && 0 <= q.slot < |WithReq(bs, p, x)[(q.bank, q.kind)].slots|
    ensures (p.bank, p.kind) in WithReq(bs, q, y) && 0 <= p.slot < |WithReq(bs, q, y)[(p.bank, p.kind)].slots|
    ensures WithReq(WithReq(bs, p, x), q, y) == WithReq(WithReq(bs, q, y), p, x)
  {
    if (p.bank, p.kind) == (q.bank, q.kind) {
      var s := bs[(p.bank, p.kind)].slots;
      assert s[p.slot := s[p.slot].(req := x)][q.slot := s[q.slot].(req := y)] ==
             s[q.slot := s[q.slot].(req := y)][p.slot := s[p.slot].(req := x)];
    }
  }

  // The flash after one pair: only the old home page's bit and count change.
  lemma PairFlash(h: Host, t: int, o: int)
    requires Inv(h) && Temp(h, t) && 0 <= t && 0 <= o < h.rwStart && o < |h.flash.table| && h.flash.table[t] != Unmapped
    ensures var h', g := RemapPair(h, t, o), GivenUp(h, o);
      && h'.flash == Flash(h.flash.table[t := Unmapped][o := h.flash.table[t]], h.flash.nand, g.flash.bits,
        g.flash.vcount)
      && h'.rwStart == h.rwStart
  {
    hide Inv, LiveIn, TempIn;
    RemapPairOk(h, t, o);
    HandKnown(h, t);
    GivenUpOk(h, o);
  }

  lemma InvParts(h: Host)
    requires Inv(h)
    ensures 0 <= h.rwStart && Shaped(h.flash) && Placed(h.flash) && Remaining(h) && Readable(h)
  {
  }

  lemma LawParts(h: Host, ls: Lists)
    requires Law(h, ls)
    ensures Inv(h) && Sorted(h, ls) && Readable(h) && Shaped(h.flash) && Placed(h.flash) && 0 <= h.rwStart
    ensures |h.flash.table| <= INVALID_LPN && forall k :: k in h.buffers ==> BufferShape(h.buffers[k])
  {
  }

  lemma BankReady(h: Host, ls: Lists, n: int)
    requires Law(h, ls) && n in ls.banks && n in ls.cursors
    ensures BankOk(h.flash, n, Trim(ls.banks[n]), ls.cursors[n]) && |ls.banks[n].gc| <= 1
    ensures Apart(ls.banks[n])
    ensures Shaped(h.flash) && Placed(h.flash) && VC_MAX !in ls.banks[n].gc
  {
    assert forall x :: x in ls.banks[n].gc ==> x in All(ls.banks[n]);
    assert BankOk(h.flash, n, ls.banks[n], ls.cursors[n]);
    TrimOk(h.flash, n, ls.banks[n], ls.cursors[n]);
  }

  lemma AllottableKept(s: Flash, s': Flash, n: int, b: Bank, c: Cursors, kind: WriteType)
    requires Allottable(s, n, b, c, kind) && BufferedOnly(s, s')
    ensures Allottable(s', n, b, c, kind)
  {
    assert LiveInAll(s'.table, n, b.data) == LiveInAll(s.table, n, b.data);
  }

  // A temporary page overwritten in its buffer keeps the home address it was
  // first written with: the remap the second write asks for breaks the law.
  method KeepsFirstHome() returns (w: Writer, ghost before: Host, ghost ls: Lists)
    ensures Law(before, ls) && |before.flash.table| == 4 && before.rwStart == 3
    ensures Read(before, 3) == Some(22) && Agreed(before, 3, 1) && !Agreed(before, 3, 2)
    ensures Temp(before, 3) && before.flash.table[3] != Unmapped && w.State() == RemapPair(before, 3, 2)
    ensures !w.Lawful()
  {
    hide Inv, Sorted, BanksOk, Known, Spared, Agreed, WrittenAt, AssignedWithout, TempsKept, LastHole,
         Full, BufferShape, Entered;
    w := OpenedForIt();
    OneIsFew();
    var ret;
    ghost var at, vpn, b';
    ret, at, vpn, b' := w.WritePage(3, false, 0, 11, 1, RW, 0);
    LawParts(w.State(), w.BlockLists());
    assert w.dev.table[3].Buffered?;
    AgreedRecord(w.State(), 3, 1);
    AgreedRecord(w.State(), 3, 2);
    ret, at, vpn, b' := w.WritePage(3, false, 0, 22, 2, RW, 0);
    LawParts(w.State(), w.BlockLists());
    AgreedRecord(w.State(), 3, 1);
    AgreedRecord(w.State(), 3, 2);
    before, ls := w.State(), w.BlockLists();
    w.RemapOne(3, 2);
  }

  method OpenedForIt() returns (w: Writer)
    ensures w.Lawful() && w.Quiet() && w.rwStart == 3 && |w.dev.table| == 4 && w.dev.table[3] == Unmapped
    ensures 0 in w.lists && 0 in w.cursors && (0, RW) in w.buffers && w.buffers[(0, RW)] == EmptyBuffer()
    ensures fresh(w) && fresh(w.dev)
  {
    hide Law, AfterOpen;
    var d := new Device(4);
    w := new Writer.Open(d, 3, 1, 5, 0);
  }

  lemma OneIsFew()
    ensures BufferShape(EmptyBuffer()) && !LastHole(EmptyBuffer())
    ensures forall i, slot, frame :: 0 <= i < SLOTS && i / 2 <= 0 ==> !Full(Entered(EmptyBuffer(), i, slot, frame))
  {
    var b := EmptyBuffer();
    assert !b.filled[0] && !b.filled[1] && !b.filled[2];
    forall i, slot, frame | 0 <= i < SLOTS && i / 2 <= 0
      ensures !Full(Entered(b, i, slot, frame))
    {
      assert !Entered(b, i, slot, frame).filled[2];
    }
  }

  lemma WrittenMapped(h: Host, h': Host, t: int, o: int, d: Data)
    requires Readable(h) && Readable(h') && 0 <= t < |h.flash.table| == |h'.flash.table| && o != INVALID_LPN
    requires WrittenDown(h, h', t, o, d)
    ensures h'.flash.table[t] != Unmapped
  {
  }

  lemma OnePair(h: Host, pair: (int, int), t: int, o: int, core: int)
    requires Inv(h) && Temp(h, t) && 0 <= t && 0 <= o < h.rwStart && o < |h.flash.table| && 0 <= core < CORES
    requires h.flash.table[t] != Unmapped && pair == (t * CORES + core, o * CORES + core) && Agreed(h, t, o)
    ensures EntryOk(h, [pair], core) && MappedFrom(h, [pair], core, 0) && AgreedFrom(h, [pair], core, 0)
  {
    hide Inv, Agreed;
  }

  lemma OneComposed(r: seq<Reading>, pair: (int, int), t: int, o: int, core: int)
    requires 0 <= t < |r| && 0 <= o < |r| && t != o && 0 <= core < CORES && |r| <= INVALID_LPN
    requires pair == (t * CORES + core, o * CORES + core) && PairsIn([pair], core, |r|)
    ensures Composed(r, [pair], core) == r[o := r[t]][t := NoData]
  {
    assert [pair][..0] == [];
    assert Mine(pair, core);
  }
}
