/** Incremental garbage collection of one bank, interleaved with the host's
    overwrites and remaps (ATLWrapper.cpp:2593-3009). */
module IncCollector {
  import opened Layout
  import opened FlashState
  import opened FlashDevice
  import opened GcModel
  import opened GcSpace
  import opened VictimChoice
  import opened BufferState
  import opened BufferFlush
  import opened BlockPartition
  import opened BankLaw
  import opened BankSteps
  import opened SlotMapping
  import opened IncModel
  import opened IncLaw
  import Addresses
  import GC = GarbageCollector

  const BLK_PAGES: int := 512            // PAGES_PER_BLK * PLANES_PER_BANK

  const NIL: int := -1

  class IncCollector {
    const dev: Device
    const bank: int
    const rwStart: int                   // RW_LOG_START_IN_PAGE
    const lpns: array<int>               // GCbuf_lpn[..][..][REQ_LPN]
    const buf: array<Data>               // two superpages and the half behind them
    var second: bool                     // cur_gcbuff_idx
    var index: int                       // GCbuf_index
    var buffered: int                    // num_gcbuffed_valid_page
    var curVt: int                       // cur_vt_vpn
    var curGc: int                       // cur_gc_vpn
    var gcBlk: int
    var cur: int
    var curRW: int
    var curJN: int
    var victims: seq<int>
    var dataList: seq<int>
    var freeList: seq<int>
    var rwList: seq<int>
    var startedSW: bool                  // write_start
    var startedRW: bool
    ghost var origin: seq<Place>
    ghost var reading: bool
    ghost var at: int

    function B(no: int): Blk {
      Blk(bank, no)
    }

    function Base(): int
      reads this
    {
      if second then SLOTS else 0
    }

    ghost predicate Arrays()
      reads this
    {
      lpns.Length == SLOTS && buf.Length == 2 * SLOTS + 1 && 0 <= index <= SLOTS && |origin| == index && lpns != buf
    }

    ghost function View(): Inc
      requires Arrays()
      reads this, lpns, buf
    {
      Inc(bank, victims, reading, at, lpns[..index], origin, buf[Base()..Base() + index])
    }

    // The empty block, if there is one.
    function Empty(): seq<int>
      reads this
    {
      if gcBlk == VC_MAX then [] else [gcBlk]
    }

    // The bank's lists; `rest` holds those that are not changed here.
    function Lists(rest: Bank): Bank
      reads this
    {
      rest.(free := freeList, data := dataList, rw := rwList, victims := victims, gc := Empty())
    }

    function Writing(): Cursors
      reads this
    {
      Cursors(cur, curRW, curJN, curGc, startedSW, startedRW)
    }

    // Victims and buffer.
    ghost predicate Core()
      reads this, dev, lpns, buf
    {
      Arrays() && IncInv(dev.State(), View()) && (reading ==> buffered == |FromCurrent(View())|)
    }

    // The invariant while a call is under way.
    ghost predicate Busy()
      reads this, dev, lpns, buf
    {
      Core() && RestOk(dev.State(), bank, Lists(NOTHING), Writing(), rwStart)
    }

    // The invariant between calls.
    ghost predicate Valid()
      reads this, dev, lpns, buf
    {
      && Busy() && index < SLOTS
      && (reading <==> curVt != VC_MAX)
      && (reading ==> curVt == victims[|victims| - 1] * BLK_PAGES + at / 2 && at % 2 == 0 && 0 <= at < BLK_LPAGES)
    }

    // RSP_Open of one bank: nothing is mapped, and no victim is chosen.
    constructor Open(d: Device, number: int, n: nat, m: nat, start: nat, addresses: array<int>, frames: array<Data>)
      requires addresses.Length == SLOTS && frames.Length == 2 * SLOTS + 1 && addresses != frames
      requires m + 5 <= n <= NO_BLOCK
      requires Shaped(d.State()) && d.bits == {} && |d.table| <= INVALID_LPN
      requires forall l :: 0 <= l < |d.table| ==> d.table[l] == Unmapped
      modifies d`nand, d`vcount
      ensures Valid() && dev == d && bank == number && victims == [] && !reading && rwStart == start
      ensures lpns == addresses && buf == frames && index == 0
      ensures Lists(NOTHING) == OpenLists(n, m) && Writing() == OpenCursors(n, m)
      ensures PageAtHand(SW) && PageAtHand(RW)
    {
      dev, bank, lpns, buf, rwStart := d, number, addresses, frames, start;
      second, index, buffered, curVt, curGc := false, 0, 0, VC_MAX, VC_MAX;
      gcBlk, cur, curRW, curJN := VC_MAX, VC_MAX, VC_MAX, VC_MAX;
      victims, dataList, freeList, origin, reading, at := [], [], [], [], false, 0;
      rwList, startedSW, startedRW := [], false, false;
      new;
      hide RestOk, PageAtHand, OpenLists, OpenCursors, IncInv, FromCurrent;
      OpenBank(n, m);
      OpenInc(dev.State(), View());
    }

    method OpenBank(n: nat, m: nat)
      requires m + 5 <= n <= NO_BLOCK && Shaped(dev.State()) && dev.bits == {} && |dev.table| <= INVALID_LPN
      requires victims == []
      requires 0 <= rwStart && forall l :: 0 <= l < |dev.table| ==> dev.table[l] == Unmapped
      modifies this`gcBlk, this`cur, this`curRW, this`curJN, this`curGc, this`dataList, this`freeList, this`rwList,
               this`startedSW, this`startedRW, dev`nand, dev`vcount
      ensures Lists(NOTHING) == OpenLists(n, m) && Writing() == OpenCursors(n, m) && curGc == VC_MAX
      ensures RestOk(dev.State(), bank, Lists(NOTHING), Writing(), rwStart) && Shaped(dev.State())
      ensures PageAtHand(SW) && PageAtHand(RW)
    {
      hide RestOk, BankOk, Outside, AfterOpen, Shaped, OpenLists;
      var spare, pages := new int[SLOTS], new Data[SLOTS + 1];
      var c := new GC.Collector.Open(dev, bank, n, m, pages, spare);
      TakeOver(c);
      NoVictims(n, m);
      OpenAllots(dev.State(), bank, Lists(NOTHING), n, m);
      OpenRest(dev.State(), bank, n, m, rwStart);
    }

    // The bank's lists and cursors as `c` has them.
    method TakeOver(c: GC.Collector)
      modifies this`gcBlk, this`cur, this`curRW, this`curJN, this`curGc, this`dataList, this`freeList, this`rwList,
               this`startedSW, this`startedRW
      ensures Writing() == c.Writing() && forall rest :: Lists(rest) == c.Lists(rest).(victims := victims)
    {
      freeList, dataList, rwList, gcBlk := c.freeList, c.dataList, c.rwList, c.gcBlk;
      cur, curRW, curJN, curGc := c.cur, c.curRW, c.curJN, c.curGc;
      startedSW, startedRW := c.startedSW, c.startedRW;
    }

    // ---------------------------------------------- the host lets go of a page

    // What an overwrite or a remap of `lpn` does to its old page here: the
    // buffered copy, the bit and the count go, and `lpn` is unmapped or mapped
    // to a write buffer.
    method HostLetsGo(lpn: int, q: Place)
      requires Valid() && 0 <= lpn < |dev.table| && dev.table[lpn].Nand? && dev.table[lpn].blk.bank == bank && !q.Nand?
      modifies this`buffered, lpns, dev
      ensures dev.table == old(dev.table)[lpn := q] && dev.nand == old(dev.nand)
      ensures Valid()
    {
      hide RestOk, IncInv, Entries, FromCurrent, Blanking;
      ghost var s := dev.State();
      var place := dev.GetVpn(lpn);
      LiveCount(s, bank, Lists(NOTHING), Writing(), rwStart, View(), lpn);
      LetGoRest(s, bank, Lists(NOTHING), Writing(), rwStart, lpn, q);
      OnlyPage(s, bank, Lists(NOTHING), Writing(), rwStart, lpn);
      LetGoOk(s, View(), lpn, q);
      var found := CheckAndInvalidate(lpn, place.blk.no);
      LetGoOf(lpn, place, q);
    }

    // The bit, the count and the table entry.
    method LetGoOf(lpn: int, place: Place, q: Place)
      requires 0 <= lpn < |dev.table| && dev.table[lpn] == place && place.Nand? && place.blk in dev.vcount
      requires 0 < dev.vcount[place.blk] <= BLK_LPAGES
      modifies dev
      ensures dev.State() == LetGo(old(dev.State()), lpn, q)
    {
      dev.InvalidateVpn(place);
      var v := dev.GetVcount(place.blk);
      dev.SetVcount(place.blk, v - 1);
      dev.SetVpn(lpn, q);
    }

    // ---------------------------------------------- the host maps pages into flash

    // A remap in flash: home address `o`, whose old page has been let go, takes
    // over the page of the temporary address `t`.
    method HostRemaps(t: int, o: int)
      requires Valid() && Shaped(dev.State()) && Placed(dev.State()) && Agrees(dev.State(), t, o) && o < rwStart <= t
      modifies dev`table
      ensures Valid() && dev.table == old(dev.table)[t := Unmapped][o := old(dev.table)[t]]
    {
      hide RestOk, IncInv, FromCurrent;
      ghost var s := dev.State();
      HandRest(s, bank, Lists(NOTHING), Writing(), rwStart, t, o);
      HandOutside(s, bank, Lists(NOTHING), Writing(), rwStart, t, o, View());
      HandInc(s, View(), t, o);
      var p := dev.GetVpn(t);
      dev.SetVpn(t, Unmapped);
      dev.SetVpn(o, p);
      assert dev.State() == HandOver(s, t, o);
    }

    // A log block no remap is awaited for, and which is not being written, joins
    // the data list.
    method LogDone(x: int)
      requires Valid() && x in rwList && !Ongoing(curRW, x) && NoTemps(dev.State(), B(x), rwStart)
      modifies this`rwList, this`dataList
      ensures Valid() && forall rest :: Lists(rest) == Apply(old(Lists(rest)), RemapDone(x))
    {
      hide RestOk, IncInv, FromCurrent;
      MoveRest(dev.State(), bank, Lists(NOTHING), Writing(), rwStart, x);
      rwList := Without(rwList, x);
      dataList := dataList + [x];
    }

    // Finding the superpage would collect, in the buffer that is in use here.
    predicate Collects(kind: WriteType)
      reads this
    {
      freeList == [] && Full(kind)
    }

    // The block being written is full.
    predicate Full(kind: WriteType)
      reads this
    {
      (if kind == SW then cur else curRW) % PAGES_PER_BLK == PAGES_PER_BLK - 1
    }

    // The next page of the block being written; the first one if it is new.
    function NextPage(kind: WriteType): int
      reads this
    {
      if kind == SW then (if startedSW then cur + 1 else cur) else (if startedRW then curRW + 1 else curRW)
    }

    // An erased superpage is at hand, and no block is lost in finding it.
    predicate PageAtHand(kind: WriteType)
      reads this, dev
    {
      && Allottable(dev.State(), bank, Lists(NOTHING), Writing(), kind)
      && (Collects(kind) ==> index == 0)
    }

    lemma NotFull()
      requires !Full(RW)
      ensures PageAtHand(RW)
    {
    }

    // A full write buffer goes to the next superpage for data or for temporary
    // pages; afterwards everything is in order exactly if the superpage is
    // clean.
    method HostWrites(kind: WriteType, slots: seq<Slot>) returns (vpn: int)
      requires Valid() && kind != JN && Proper(dev.State(), slots, rwStart, kind) && PageAtHand(kind)
      modifies this`gcBlk, this`cur, this`curRW, this`curJN, this`curGc, this`dataList, this`freeList, this`rwList,
               this`startedSW, this`startedRW, dev
      ensures Written(old(dev.State()), dev.State(), slots) && vpn == HostPage(Writing(), kind)
      ensures Assigned(old(dev.State()), bank, old(Lists(NOTHING)), old(Writing()), kind, vpn, Lists(NOTHING),
        Writing())
      ensures Superpage(old(dev.bits), slots, B(vpn / PAGES_PER_BLK), vpn % PAGES_PER_BLK)
      ensures Valid() <==> Clean(dev.State(), slots, B(vpn / PAGES_PER_BLK), vpn % PAGES_PER_BLK)
    {
      hide RestOk, IncInv, FromCurrent, HostHalf, Allottable, Proper, Clean, Filled, MeaningKept, Preserved,
           Written, Shaped, Placed, Assigned;
      ghost var s, touched := dev.State(), Reachable(bank, Lists(NOTHING));
      vpn := Assign(kind);
      ghost var s1, b, c, g := dev.State(), Lists(NOTHING), Writing(), View();
      ProperKept(s, s1, touched, slots, rwStart, kind);
      ProperFresh(s1, slots, rwStart, kind);
      KeptPreserved(s, s1, touched);
      HalfCount(s1, bank, b, c, rwStart, kind, slots);
      HalfShape(s1, bank, b, c, rwStart, kind);
      StoreSlots(dev, slots, B(vpn / PAGES_PER_BLK), vpn % PAGES_PER_BLK);
      RestNeedsClean(s1, dev.State(), slots, bank, b, c, rwStart, kind);
      HalfVictims(s1, bank, b, c, rwStart, kind, g);
      FilledPlaced(s1, dev.State(), slots, B(vpn / PAGES_PER_BLK), vpn % PAGES_PER_BLK);
      FillInc(s1, dev.State(), g, slots, B(vpn / PAGES_PER_BLK), vpn % PAGES_PER_BLK);
      FillWritten(s, s1, dev.State(), slots, B(vpn / PAGES_PER_BLK), vpn % PAGES_PER_BLK);
      FillSuperpage(s, s1, dev.State(), touched, slots, B(vpn / PAGES_PER_BLK), vpn % PAGES_PER_BLK);
    }

    // The slots are in the superpage as they were in the buffer; no bit is gone.
    ghost predicate Superpage(bits: set<Place>, slots: seq<Slot>, b: Blk, p: int)
      reads dev
    {
      (b, p) in dev.nand && dev.nand[(b, p)] == Cells(slots) && bits <= dev.bits
    }

    // The allocator works on the same tables, lists and cursors.
    method NewCollector() returns (c: GC.Collector)
      requires Valid()
      ensures fresh(c) && fresh(c.buf) && fresh(c.lpns) && c.dev == dev && c.bank == bank && c.Valid()
      ensures c.Lists(NOTHING) == Trim(Lists(NOTHING)) && c.Lists(Lists(NOTHING)) == Lists(NOTHING)
      ensures c.Writing() == Writing()
    {
      hide RestOk, IncInv, FromCurrent, BankOk;
      TrimRest(dev.State(), bank, Lists(NOTHING), Writing(), rwStart);
      var spare, pages := new int[SLOTS], new Data[SLOTS + 1];
      c := new GC.Collector.On(dev, bank, Lists(NOTHING), Writing(), pages, spare);
    }

    // assign_new_write_vpn or assign_new_write_vpn_RW on the bank's lists.
    method Assign(kind: WriteType) returns (vpn: int)
      requires Valid() && kind != JN && PageAtHand(kind)
      modifies this`gcBlk, this`cur, this`curRW, this`curJN, this`curGc, this`dataList, this`freeList, this`rwList,
               this`startedSW, this`startedRW, dev
      ensures Core() && View() == old(View()) && vpn == HostPage(Writing(), kind)
      ensures Assigned(old(dev.State()), bank, old(Lists(NOTHING)), old(Writing()), kind, vpn, Lists(NOTHING),
        Writing())
      ensures HostHalf(dev.State(), bank, Lists(NOTHING), Writing(), rwStart, kind)
      ensures MeaningKept(old(dev.State()), dev.State(), old(Reachable(bank, Lists(NOTHING))))
    {
      hide RestOk, IncInv, FromCurrent, HostHalf, MeaningKept, Reachable, PageAtHand, BankOk, Apart, IsVictim,
           Assigned;
      ghost var s, g, b := dev.State(), View(), Lists(NOTHING);
      TrimRest(s, bank, b, Writing(), rwStart);
      var c;
      vpn, c := AllocateFor(kind);
      OutsideInc(s, dev.State(), g, Reachable(bank, b));
      TakeOver(c);
      assert Lists(NOTHING) == c.Lists(b) && View() == g;
    }

    method AllocateFor(kind: WriteType) returns (vpn: int, c: GC.Collector)
      requires Valid() && kind != JN && PageAtHand(kind)
      modifies dev
      ensures fresh(c) && vpn == HostPage(c.Writing(), kind)
      ensures Assigned(old(dev.State()), bank, Lists(NOTHING), Writing(), kind, vpn, c.Lists(Lists(NOTHING)),
        c.Writing())
      ensures HostHalf(dev.State(), bank, c.Lists(Lists(NOTHING)), c.Writing(), rwStart, kind)
      ensures MeaningKept(old(dev.State()), dev.State(), Reachable(bank, Lists(NOTHING)))
    {
      hide RestOk, IncInv, FromCurrent, HostHalf, MeaningKept, Reachable, PageAtHand, BankOk, Assigned;
      if kind == SW {
        vpn, c := AllocateData();
      } else {
        vpn, c := AllocateLog();
      }
    }

    method AllocateData() returns (vpn: int, c: GC.Collector)
      requires Valid() && PageAtHand(SW)
      modifies dev
      ensures fresh(c) && fresh(c.buf) && fresh(c.lpns) && vpn == c.cur
      ensures Assigned(old(dev.State()), bank, Lists(NOTHING), Writing(), SW, vpn, c.Lists(Lists(NOTHING)), c.Writing())
      ensures HostHalf(dev.State(), bank, c.Lists(Lists(NOTHING)), c.Writing(), rwStart, SW)
      ensures MeaningKept(old(dev.State()), dev.State(), Reachable(bank, Lists(NOTHING)))
    {
      hide RestOk, IncInv, FromCurrent, HostHalf, BankOk, Pending, MeaningKept, Places, Reshuffled, Apart, Assigned,
        FirstLeast;
      ghost var s, b, cs := dev.State(), Lists(NOTHING), Writing();
      TrimRest(s, bank, b, cs, rwStart);
      c := NewCollector();
      ghost var vt;
      vpn, vt := c.AssignNewWriteVpn();
      DataAssigned(s, bank, b, cs, vpn, c.Lists(b), c.Writing(), vt);
      DataReshuffled(b, c.Lists(b), vt);
      if vt in b.data && |b.gc| == 1 { CollectFrom(b, vt); }
      DataRest(s, dev.State(), bank, b, c.Lists(b), cs, c.Writing(), rwStart);
    }

    method AllocateLog() returns (vpn: int, c: GC.Collector)
      requires Valid() && PageAtHand(RW)
      modifies dev
      ensures fresh(c) && fresh(c.buf) && fresh(c.lpns) && vpn == c.curRW
      ensures Assigned(old(dev.State()), bank, Lists(NOTHING), Writing(), RW, vpn, c.Lists(Lists(NOTHING)), c.Writing())
      ensures HostHalf(dev.State(), bank, c.Lists(Lists(NOTHING)), c.Writing(), rwStart, RW)
      ensures MeaningKept(old(dev.State()), dev.State(), Reachable(bank, Lists(NOTHING)))
    {
      hide RestOk, IncInv, FromCurrent, HostHalf, BankOk, RwPending, MeaningKept, FreeBlk, Reshuffled, Allottable,
           Apart, Assigned, EndOf, Apply;
      ghost var s, b, cs := dev.State(), Lists(NOTHING), Writing();
      TrimRest(s, bank, b, cs, rwStart);
      c := NewCollector();
      TrimAllottable(s, bank, b, cs, RW);
      ghost var e := c.Outcome();
      vpn := c.AllotLog();
      LogAssigned(s, bank, b, cs, vpn, c.Lists(b), c.Writing(), e);
      LogRest(s, dev.State(), bank, b, c.Lists(b), cs, c.Writing(), rwStart, vpn / PAGES_PER_BLK);
    }

    // check_n_invalid_GCbuff
    method CheckAndInvalidate(lpn: int, block: int) returns (found: bool)
      requires Core() && index < SLOTS && 0 <= lpn < |dev.table| && dev.table[lpn].Nand?
      requires dev.table[lpn].blk == B(block)
      requires (reading <==> curVt != VC_MAX) && block != NO_BLOCK
      requires reading ==> curVt / BLK_PAGES == victims[|victims| - 1]
      modifies this`buffered, lpns
      ensures Arrays() && View() == Blanking(old(View()), lpn)
      ensures reading ==> buffered == |FromCurrent(View())|
    {
      hide RestOk, IncInv, Entries, FromCurrent, Blanking;
      ghost var g := View();
      IncEntries(dev.State(), g);
      found := false;
      var i := 0;
      while i < index
        invariant 0 <= i <= index && forall j :: 0 <= j < i ==> lpns[j] != lpn
      {
        if lpns[i] == lpn {
          BlankOne(dev.State(), g, lpn, i);
          lpns[i] := INVALID_LPN;
          assert lpns[..index] == g.lpns[i := INVALID_LPN];
          if curVt / BLK_PAGES == block {
            buffered := buffered - 1;
          }
          return true;
        }
        i := i + 1;
      }
      BlankNone(g, lpn);
    }

    // ---------------------------------------------- writing the buffer

    // decrease_vcount_of_vt_block: `count` pages have left the victims, and
    // the counts are taken down from the head of the list.
    method DecreaseVcount(count0: int, ghost s: Flash, ghost g: Inc, ghost b: Blk, ghost p: int)
      requires IncInv(s, g) && WriteTarget(s, g, b, p) && MovedTo(s.table, dev.table, SlotsOf(g), b, p)
      requires g.victims == victims && g.bank == bank && victims != []
      requires Draining(s, dev.table, g, 0, dev.vcount, count0)
      modifies dev`vcount
      ensures forall v :: v in victims ==> Counted(dev.State(), B(v))
      ensures forall c :: !IsVictim(g, c) && c in old(dev.vcount) ==>
        c in dev.vcount && dev.vcount[c] == old(dev.vcount)[c]
    {
      hide RestOk, IncInv, LiveIn, MovedTo, Owed;
      var count, i := count0, 0;
      while true
        invariant 0 <= i < |victims| && Draining(s, dev.table, g, i, dev.vcount, count)
        invariant forall c :: !IsVictim(g, c) && c in old(dev.vcount) ==>
          c in dev.vcount && dev.vcount[c] == old(dev.vcount)[c]
        decreases |victims| - i
      {
        DrainStep(s, dev.table, g, b, p, i, dev.vcount, count);
        assert victims[i] in victims;
        VictimCount(s, g, victims[i]);
        var v := dev.GetVcount(B(victims[i]));
        if count > v {
          dev.SetVcount(B(victims[i]), 0);
          count := count - v;
        } else {
          dev.SetVcount(B(victims[i]), v - count);
          count := 0;
        }
        if count == 0 {
          break;
        }
        i := i + 1;
      }
    }

    // An empty block is at hand if the next superpage needs one.
    predicate TargetReady()
      reads this
    {
      curGc % PAGES_PER_BLK == PAGES_PER_BLK - 1 ==> gcBlk != VC_MAX
    }

    // The page behind cur_gc_vpn, or the first one of the empty block.
    function NextGc(): int
      reads this
    {
      if curGc % PAGES_PER_BLK == PAGES_PER_BLK - 1 then gcBlk * PAGES_PER_BLK else curGc + 1
    }

    // Where the next superpage goes: the unprogrammed page behind cur_gc_vpn, or
    // the first page of the empty block.  (A full block's map log is flushed
    // here, which leaves the table as it is.)
    method NextGcPage() returns (vpn: int)
      requires Busy() && TargetReady()
      modifies this`curGc, this`gcBlk, this`dataList, dev`vcount
      ensures Core() && View() == old(View()) && Preserved(old(dev.State()), dev.State())
      ensures curGc == vpn == old(NextGc())
      ensures dev.table == old(dev.table)
      ensures GcHalf(dev.State(), bank, Lists(NOTHING), Writing(), rwStart)
      ensures (B(vpn / PAGES_PER_BLK), vpn % PAGES_PER_BLK) !in dev.nand && vpn / PAGES_PER_BLK in dataList
      ensures old(curGc) % PAGES_PER_BLK == PAGES_PER_BLK - 1 ==>
        vpn == old(gcBlk) * PAGES_PER_BLK && forall rest :: Lists(rest) == Apply(old(Lists(rest)), OpenGc)
      ensures old(curGc) % PAGES_PER_BLK != PAGES_PER_BLK - 1 ==>
        vpn == old(curGc) + 1 && forall rest :: Lists(rest) == old(Lists(rest))
    {
      hide RestOk, IncInv, GcHalf, FromCurrent, Preserved, Swap;
      if curGc == VC_MAX || curGc % PAGES_PER_BLK == PAGES_PER_BLK - 1 {
        vpn := OpenEmpty();
      } else {
        IncEntries(dev.State(), View());
        PreservedSelf(dev.State());
        NextGcHalf(dev.State(), bank, Lists(NOTHING), Writing(), rwStart);
        vpn := curGc + 1;
        curGc := vpn;
      }
      GcPage(dev.State(), bank, Lists(NOTHING), Writing(), rwStart);
    }

    // The empty block becomes the block written to.
    method OpenEmpty() returns (vpn: int)
      requires Busy() && curGc % PAGES_PER_BLK == PAGES_PER_BLK - 1 && gcBlk != VC_MAX
      modifies this`curGc, this`gcBlk, this`dataList, dev`vcount
      ensures Core() && View() == old(View()) && Preserved(old(dev.State()), dev.State())
      ensures curGc == vpn == old(gcBlk) * PAGES_PER_BLK && gcBlk == VC_MAX && dataList == old(dataList) + [old(gcBlk)]
      ensures GcHalf(dev.State(), bank, Lists(NOTHING), Writing(), rwStart)
    {
      hide RestOk, IncInv, GcHalf, FromCurrent, Preserved, Entries, Shaped, Placed;
      ghost var s, g, b, c := dev.State(), View(), Lists(NOTHING), Writing();
      IncEntries(s, g);
      var gcBlock := gcBlk;
      OpenGcHalf(s, bank, b, c, rwStart);
      EmptyApart(s, bank, b, c, rwStart);
      OtherCount(s, g, B(gcBlock), 0);
      CountPreserved(s, g, B(gcBlock));
      gcBlk := VC_MAX;
      dev.SetVcount(B(gcBlock), 0);
      vpn := gcBlock * PAGES_PER_BLK;
      dataList := dataList + [gcBlock];
      curGc := vpn;
      assert dev.State() == s.(vcount := s.vcount[B(gcBlock) := 0]);
      assert Lists(NOTHING) == Apply(b, OpenGc) && Writing() == c.(gc := vpn);
    }

    // write_gc_buffer
    method WriteGcBuffer()
      requires Busy() && index == SLOTS && reading && TargetReady()
      modifies this`curGc, this`gcBlk, this`dataList, this`index, this`buffered, this`second, this`origin, dev
      ensures Busy() && index == 0 && buffered == 0 && second == !old(second)
      ensures Preserved(old(dev.State()), dev.State()) && curGc == old(NextGc())
      ensures View().lpns == [] && FromCurrent(View()) == {}
      ensures OthersStay(old(dev.table), dev.table, old(View()))
    {
      hide RestOk, IncInv, FromCurrent, Preserved, OthersStay;
      ghost var g := View();
      StoreBuffer();
      buffered := 0;
      index, origin := 0, [];
      // change the gc buffer
      second := !second;
      assert View() == Drained(g);
      NothingFrom(View());
    }

    // The buffer goes to the next superpage.
    method StoreBuffer()
      requires Busy() && index == SLOTS && reading && TargetReady()
      modifies this`curGc, this`gcBlk, this`dataList, dev
      ensures Arrays() && View() == old(View()) && IncInv(dev.State(), Drained(View()))
      ensures RestOk(dev.State(), bank, Lists(NOTHING), Writing(), rwStart)
      ensures curGc == old(NextGc())
      ensures Preserved(old(dev.State()), dev.State()) && OthersStay(old(dev.table), dev.table, old(View()))
    {
      hide RestOk, GcHalf, IncInv, LiveIn, BufferWritten, Carried, Counted, Entries, Shaped, Placed, Preserved,
           TargetReady, OthersStay, FromCurrent;
      ghost var s0 := dev.State();
      var vpn := NextGcPage();
      ghost var s, g := dev.State(), View();
      IncEntries(s, g);
      ghost var b, p := B(vpn / PAGES_PER_BLK), vpn % PAGES_PER_BLK;
      GcTarget(s, bank, Lists(NOTHING), Writing(), rwStart, g);
      StoreEntries(B(vpn / PAGES_PER_BLK), vpn % PAGES_PER_BLK);
      GcFillRest(s, dev.State(), g, bank, Lists(NOTHING), Writing(), rwStart);
      WriteOk(s, dev.State(), g, b, p);
      WritePreserved(s, dev.State(), g, b, p);
      WriteOthers(s, dev.State(), g, b, p);
      WriteOthersOld(s0, s, dev.State(), g);
      PreservedTrans(s0, s, dev.State());
    }

    // Mapping and programming the live entries, and the counts.
    method StoreEntries(b: Blk, p: int)
      requires Arrays() && IncInv(dev.State(), View()) && WriteTarget(dev.State(), View(), b, p) && victims != []
      requires Carried(dev.State(), b) && Counted(dev.State(), b) && b in dev.vcount
      modifies dev
      ensures BufferWritten(old(dev.State()), dev.State(), View(), b, p)
    {
      hide RestOk, IncInv, LiveIn, MovedTo, Carried, Counted, Entries, Shaped, Placed, BufferWritten, Draining;
      ghost var s, g := dev.State(), View();
      IncEntries(s, g);
      var count := PutEntries(b, p);
      DrainStart(s, dev.State(), g, count);
      DecreaseVcount(count, s, g, b, p);
      ghost var s' := dev.State().(vcount := dev.vcount[b := s.vcount[b] + count]);
      TargetFits(s, dev.State(), s', g, b, p, count);
      var v := dev.GetVcount(b);
      dev.SetVcount(b, v + count);
      assert dev.State() == s';
    }

    method PutEntries(b: Blk, p: int) returns (count: int)
      requires Arrays() && IncInv(dev.State(), View()) && WriteTarget(dev.State(), View(), b, p)
      modifies dev`table, dev`bits, dev`nand
      ensures MovedTo(old(dev.table), dev.table, SlotsOf(View()), b, p) && count == |Named(SlotsOf(View()))|
      ensures dev.nand == old(dev.nand)[(b, p) := Cells(SlotsOf(View()))]
      ensures forall x :: x in dev.bits <==> x in old(dev.bits) || InPage(x, b, p, SlotsOf(View()))
    {
      hide RestOk, IncInv, LiveIn, MovedTo, Entries, Shaped, Placed;
      ghost var s, g := dev.State(), View();
      IncEntries(s, g);
      SlotsFacts(s, g);
      EntriesIn(s, g);
      var slots := seq(SLOTS, i requires 0 <= i < SLOTS && lpns.Length == SLOTS && buf.Length == 2 * SLOTS + 1
                         reads this, lpns, buf => Slot(lpns[i], INVALID_LPN, buf[Base() + i]));
      assert slots == SlotsOf(g);
      var cells;
      count, cells := MapSlots(dev, slots, b, p);
      dev.Program(b, p, cells);
    }

    // ---------------------------------------------- reading a victim page

    // read_victim_page: both halves into the buffer, and which of them are
    // live by the bitmap; a live upper half alone moves down one slot.
    method ReadVictimPage(page: int, plane: int) returns (lpn0: int, valid0: bool, lpn1: int, valid1: bool)
      requires Busy() && index < SLOTS && reading && 0 <= page < PAGES_PER_BLK && 0 <= plane < PLANES
      requires at == (plane * PAGES_PER_BLK + page) * 2 && (Cur(View()), page) in dev.nand
      modifies buf
      ensures Busy() && View() == old(View())
      ensures TestedBit(Nand(Cur(View()), page, plane * 2), lpn0, valid0, Base() + index)
      ensures TestedBit(Nand(Cur(View()), page, plane * 2 + 1), lpn1, valid1,
        if valid0 then Base() + index + 1 else Base() + index)
    {
      hide RestOk, IncInv, Entries, FromCurrent;
      ghost var s, g := dev.State(), View();
      IncEntries(s, g);
      var blk := B(victims[|victims| - 1]);
      var place0, place1 := Nand(blk, page, plane * 2), Nand(blk, page, plane * 2 + 1);
      BitmapExact(s, g, place0);
      BitmapExact(s, g, place1);
      lpn0, valid0, lpn1, valid1 := ReadHalves(blk, page, plane);
    }

    // The test made: an address and a set bit.  Nothing is asked of the page.
    method ReadHalves(blk: Blk, page: int, plane: int) returns (lpn0: int, valid0: bool, lpn1: int, valid1: bool)
      requires Arrays() && index < SLOTS && 0 <= plane < PLANES
      requires (blk, page) in dev.nand && |dev.nand[(blk, page)]| == SLOTS
      modifies buf
      ensures Arrays() && View() == old(View())
      ensures lpn0 == Effective(dev.nand[(blk, page)][plane * 2])
        && lpn1 == Effective(dev.nand[(blk, page)][plane * 2 + 1])
      ensures valid0 <==> lpn0 != INVALID_LPN && Nand(blk, page, plane * 2) in dev.bits
      ensures valid1 <==> lpn1 != INVALID_LPN && Nand(blk, page, plane * 2 + 1) in dev.bits
      ensures valid0 ==> buf[Base() + index] == dev.nand[(blk, page)][plane * 2].data
      ensures valid1 ==> buf[Base() + if valid0 then index + 1 else index] == dev.nand[(blk, page)][plane * 2 + 1].data
    {
      var low, high := dev.ReadPage(blk, page, plane);
      lpn0, lpn1 := Effective(low), Effective(high);
      valid0 := lpn0 != INVALID_LPN && Nand(blk, page, plane * 2) in dev.bits;
      valid1 := lpn1 != INVALID_LPN && Nand(blk, page, plane * 2 + 1) in dev.bits;
      FillFrame(low.data, high.data, !valid0 && valid1);
    }

    // A page read behind the buffered ones.
    method FillFrame(low: Data, high: Data, shift: bool)
      requires Arrays() && index < SLOTS
      modifies buf
      ensures Arrays() && View() == old(View()) && buf[Base() + index + 1] == high
      ensures buf[Base() + index] == if shift then high else low
    {
      ghost var g := View();
      buf[Base() + index], buf[Base() + index + 1] := low, high;
      if shift {
        buf[Base() + index] := buf[Base() + index + 1];
      }
      assert buf[Base()..Base() + index] == g.data;
    }

    // The half at `p` is live exactly if `valid`, and then the buffer holds it.
    ghost predicate TestedBit(p: Place, lpn: int, valid: bool, at: int)
      reads dev, buf
    {
      && (valid ==>
            && 0 <= lpn < |dev.table| && dev.table[lpn] == p && Shaped(dev.State()) && Placed(dev.State())
            && 0 <= at < buf.Length && Resolve(dev.State(), lpn) == Stored(buf[at]))
      && (!valid ==> forall l :: 0 <= l < |dev.table| ==> dev.table[l] != p)
    }

    // A live half enters the buffer, which is written when it is full; the half
    // behind it is then where the other buffer begins, or is copied to the front.
    method PushHalf(p: Place, lpn: int, carry: bool) returns (wrote: bool)
      requires Busy() && index < SLOTS && reading && InBlock(p) && p.blk == Cur(View()) && Pos(p) == at
      requires 0 <= lpn < |dev.table| && dev.table[lpn] == p && Resolve(dev.State(), lpn) == Stored(buf[Base() + index])
      requires index == SLOTS - 1 ==> TargetReady()
      modifies this`curGc, this`gcBlk, this`dataList, this`index, this`buffered, this`second, this`origin, this`at,
               dev, lpns, buf
      ensures Busy() && index < SLOTS && at == old(at) + 1 && Preserved(old(dev.State()), dev.State())
      ensures carry ==> buf[Base() + index] == old(buf[Base() + index + 1])
      ensures wrote <==> old(index) == SLOTS - 1
      ensures !wrote ==> dev.State() == old(dev.State()) && index == old(index) + 1
      ensures !wrote ==> curGc == old(curGc) && gcBlk == old(gcBlk)
      ensures wrote ==> index == 0 && curGc == old(NextGc())
      ensures forall l :: 0 <= l < |dev.table| && Unread(View(), old(dev.table)[l]) ==>
        dev.table[l] == old(dev.table)[l]
      ensures forall l :: 0 <= l < |dev.table| && Unread(View(), dev.table[l]) ==> dev.table[l] == old(dev.table)[l]
    {
      hide RestOk, IncInv, Entries, FromCurrent, Carried, Counted, Blank, Shaped, Placed, Resolve;
      ghost var s := dev.State();
      IncEntries(s, View());
      PreservedSelf(s);
      EnterHalf(p, lpn);
      wrote := index == SLOTS;
      if wrote {
        WriteFull(carry);
      }
    }

    // A full buffer is written; the half behind it begins the next one.
    method WriteFull(carry: bool)
      requires Busy() && index == SLOTS && reading && TargetReady()
      modifies this`curGc, this`gcBlk, this`dataList, this`index, this`buffered, this`second, this`origin, dev, buf
      ensures Busy() && index == 0 && Preserved(old(dev.State()), dev.State()) && curGc == old(NextGc())
      ensures carry ==> buf[Base()] == old(buf[Base() + SLOTS])
      ensures forall l :: 0 <= l < |dev.table| && Unread(View(), old(dev.table)[l]) ==>
        dev.table[l] == old(dev.table)[l]
      ensures forall l :: 0 <= l < |dev.table| && Unread(View(), dev.table[l]) ==> dev.table[l] == old(dev.table)[l]
    {
      hide RestOk, IncInv, Entries, FromCurrent, Carried, Counted, Blank, Shaped, Placed, Resolve, TargetReady;
      IncEntries(dev.State(), View());
      EntriesNotUnread(dev.State(), View());
      WriteGcBuffer();
      if carry && !second {
        buf[0] := buf[2 * SLOTS];
      }
      assert View().lpns == [];
    }

    method EnterHalf(p: Place, lpn: int)
      requires Busy() && index < SLOTS && reading && InBlock(p) && p.blk == Cur(View()) && Pos(p) == at
      requires 0 <= lpn < |dev.table| && dev.table[lpn] == p && Resolve(dev.State(), lpn) == Stored(buf[Base() + index])
      modifies this`index, this`buffered, this`origin, this`at, lpns
      ensures Busy() && index == old(index) + 1 && at == old(at) + 1
    {
      hide RestOk, IncInv, Entries, FromCurrent, Resolve;
      ghost var s, g := dev.State(), View();
      TakeHalf(s, g, p, lpn, buf[Base() + index]);
      lpns[index] := lpn;
      index, buffered, origin, at := index + 1, buffered + 1, origin + [p], at + 1;
      assert lpns[..index] == g.lpns + [lpn];
      assert buf[Base()..Base() + index] == g.data + [buf[Base() + index - 1]];
      assert View() == IncModel.Taken(g, lpn, p, buf[Base() + index - 1]);
      OneFrom(g, IncModel.Taken(g, lpn, p, buf[Base() + index - 1]));
    }

    // ---------------------------------------------- erasing a victim

    // A free block is at hand if the empty block has been used.
    predicate EraseReady()
      reads this
    {
      gcBlk == VC_MAX ==> freeList != []
    }

    // No page is mapped to the block.
    ghost predicate NoneIn(block: int)
      reads dev
    {
      forall l :: 0 <= l < |dev.table| && dev.table[l].Nand? ==> dev.table[l].blk != B(block)
    }

    // What giving victim `v` back does to the lists.
    ghost function Given(b: Bank, v: int): Bank
      requires v in b.victims && (b.gc == [] ==> b.free != [])
    {
      if b.gc == [] then Apply(b, EraseRefill(v)) else Apply(b, BlockPartition.Erase(v))
    }

    // Some victim of the list counts nothing.
    predicate Used(list: seq<int>)
      reads dev
    {
      SomeUsed(dev.vcount, bank, list)
    }

    // erase_victim_block: the first victim whose count has come down to zero.
    // The code stops if the block that replaces a used empty block is missing.
    method EraseVictimBlock() returns (erased: int, stopped: bool, ghost gone: int)
      requires Valid() && victims != []
      modifies this`curVt, this`reading, this`victims, this`freeList, this`gcBlk, dev`nand, dev`vcount
      ensures Valid() && Preserved(old(dev.State()), dev.State()) && (reading ==> old(reading))
      ensures stopped <==> old(Used(victims) && !EraseReady())
      ensures erased != 0 <==> old(Used(victims) && EraseReady())
      ensures erased == 0 ==>
        dev.State() == old(dev.State()) && reading == old(reading) && forall rest :: Lists(rest) == old(Lists(rest))
      ensures erased != 0 ==>
        && gone in old(victims) && FirstUsed(old(dev.vcount), bank, old(victims), gone)
        && (forall rest :: Lists(rest) == Given(old(Lists(rest)), gone))
        && NoneIn(gone) && Blank(dev.State(), B(gone), 0) && B(gone) in dev.vcount && dev.vcount[B(gone)] == VC_MAX
    {
      hide RestOk, IncInv, Entries, LiveIn, FromCurrent, Given, Blank;
      ghost var s, g := dev.State(), View();
      IncEntries(s, g);
      PreservedSelf(s);
      stopped := false;
      for i := 0 to |victims|
        invariant Valid() && dev.State() == s && View() == g && victims == old(victims) && !stopped
        invariant reading == old(reading)
        invariant gcBlk == old(gcBlk) && freeList == old(freeList)
        invariant forall rest :: Lists(rest) == old(Lists(rest))
        invariant forall j :: 0 <= j < i ==> B(victims[j]) in dev.vcount && dev.vcount[B(victims[j])] != 0
      {
        assert victims[i] in victims;
        VictimCounted(s, g, victims[i]);
        var vtBlock := victims[i];
        var v := dev.GetVcount(B(vtBlock));
        if v == 0 {
          if !EraseReady() {
            return 0, true, VC_MAX;
          }
          EraseSafe(s, g, vtBlock);
          Reclaim(vtBlock);
          return 1, false, vtBlock;
        }
      }
      erased, gone := 0, VC_MAX;
    }

    // The erasure, and the victim's way to the free list.
    method Reclaim(vtBlock: int)
      requires Valid() && vtBlock in victims && LiveIn(dev.table, B(vtBlock)) == {} && EraseReady()
      modifies this`curVt, this`reading, this`victims, this`freeList, this`gcBlk, dev`nand, dev`vcount
      ensures Valid() && Preserved(old(dev.State()), dev.State()) && (reading ==> old(reading))
      ensures forall rest :: Lists(rest) == Given(old(Lists(rest)), vtBlock)
      ensures Blank(dev.State(), B(vtBlock), 0) && B(vtBlock) in dev.vcount && dev.vcount[B(vtBlock)] == VC_MAX
      ensures dev.table == old(dev.table)
    {
      hide RestOk, IncInv, Entries, LiveIn, FromCurrent, Shaped, Placed, Blank, FreeBlk, Places, Without, Preserved,
           Returned, IsVictim, Choosable, Exact, Given;
      ghost var s, g := dev.State(), View();
      IncEntries(s, g);
      EraseVictim(vtBlock);
      ghost var s1 := dev.State();
      FreeVictim(vtBlock);
      PreservedTrans(s, s1, dev.State());
      forall rest
        ensures Lists(rest) == Given(old(Lists(rest)), vtBlock)
      {
        GivenParts(old(Lists(rest)), vtBlock);
      }
    }

    lemma GivenParts(b: Bank, v: int)
      requires v in b.victims && (b.gc == [] ==> b.free != [])
      ensures Given(b, v) == b.(victims := Without(b.victims, v), gc := if b.gc == [] then [b.free[0]] else b.gc,
        free := (if b.gc == [] then b.free[1..] else b.free) + [v])
    {
    }

    method EraseVictim(vtBlock: int)
      requires Valid() && vtBlock in victims && LiveIn(dev.table, B(vtBlock)) == {}
      modifies this`curVt, this`reading, this`victims, dev`nand, dev`vcount
      ensures Valid() && Preserved(old(dev.State()), dev.State()) && (reading ==> old(reading))
      ensures victims == Without(old(victims), vtBlock) && Shaped(dev.State()) && Placed(dev.State())
      ensures dev.State() == Returned(old(dev.State()), B(vtBlock))
      ensures FreeBlk(dev.State(), B(vtBlock)) && Places(Lists(NOTHING), vtBlock) == 0 && 0 <= vtBlock < NO_BLOCK
      ensures Blank(dev.State(), B(vtBlock), 0) && B(vtBlock) in dev.vcount && dev.vcount[B(vtBlock)] == VC_MAX
      ensures dev.table == old(dev.table)
    {
      hide RestOk, IncInv, Entries, LiveIn, FromCurrent, Shaped, Placed, FreeBlk, Places, Blank;
      ghost var s, g := dev.State(), View();
      IncEntries(s, g);
      GoneOk(s, g, vtBlock);
      EraseRest(s, bank, Lists(NOTHING), Writing(), rwStart, vtBlock);
      ErasedBlank(s, B(vtBlock));
      WithoutFacts(victims, vtBlock);
      dev.Erase(B(vtBlock));
      dev.SetVcount(B(vtBlock), VC_MAX);
      DropVictim(vtBlock);
    }

    // The victim leaves the list; if it is being read, an overwrite has made it
    // fully invalid, and nothing is read any more.
    method DropVictim(vtBlock: int)
      requires Arrays() && vtBlock in victims && 0 <= vtBlock && (reading <==> curVt != VC_MAX)
      requires reading ==> curVt == victims[|victims| - 1] * BLK_PAGES + at / 2 && at % 2 == 0 && 0 <= at < BLK_LPAGES
      modifies this`curVt, this`reading, this`victims
      ensures Arrays() && View() == Gone(old(View()), vtBlock) && (reading <==> curVt != VC_MAX)
      ensures reading ==> old(reading) && curVt == old(curVt) && vtBlock != old(victims[|victims| - 1])
    {
      ghost var g := View();
      if vtBlock == curVt / BLK_PAGES {
        curVt := VC_MAX;
      }
      reading := reading && vtBlock != victims[|victims| - 1];
      victims := Without(victims, vtBlock);
      assert View() == Gone(g, vtBlock);
    }

    // The erased victim is free; the block that replaces a used empty block is
    // erased.
    method FreeVictim(vtBlock: int)
      requires Valid() && EraseReady() && Shaped(dev.State()) && Placed(dev.State())
      requires FreeBlk(dev.State(), B(vtBlock)) && Places(Lists(NOTHING), vtBlock) == 0 && 0 <= vtBlock < NO_BLOCK
      requires Blank(dev.State(), B(vtBlock), 0)
      modifies this`freeList, this`gcBlk, dev`nand
      ensures Valid() && Preserved(old(dev.State()), dev.State())
      ensures freeList == (if old(gcBlk) == VC_MAX then old(freeList)[1..] else old(freeList)) + [vtBlock]
      ensures gcBlk == if old(gcBlk) == VC_MAX then old(freeList)[0] else old(gcBlk)
      ensures Blank(dev.State(), B(gcBlk), 0) && Blank(dev.State(), B(vtBlock), 0) && gcBlk != VC_MAX
    {
      hide RestOk, IncInv, Entries, LiveIn, FromCurrent, Shaped, Placed, FreeBlk, Places, Blank, Exact, Preserved;
      RestGc(dev.State(), bank, Lists(NOTHING), Writing(), rwStart);
      PreservedSelf(dev.State());
      if gcBlk == VC_MAX {
        TakeEmpty(vtBlock);
      }
      RestGc(dev.State(), bank, Lists(NOTHING), Writing(), rwStart);
      FreedRest(dev.State(), bank, Lists(NOTHING), Writing(), rwStart, vtBlock);
      freeList := freeList + [vtBlock];
    }

    // A free block that is not marked erased is erased.
    method EraseNew(b: Blk)
      requires Core() && !IsVictim(View(), b) && LiveIn(dev.table, b) == {} && b in dev.vcount
      requires Shaped(dev.State()) && Placed(dev.State()) && (dev.vcount[b] == 0 || Blank(dev.State(), b, 0))
      modifies dev`nand
      ensures Core() && View() == old(View()) && Preserved(old(dev.State()), dev.State())
      ensures Shaped(dev.State()) && Placed(dev.State()) && Blank(dev.State(), b, 0)
      ensures dev.nand == old(dev.nand) || dev.nand == Wiped(old(dev.nand), b)
      ensures forall y :: Exact(old(dev.State()), y) ==> Exact(dev.State(), y)
    {
      hide IncInv, Entries, LiveIn, FromCurrent, Shaped, Placed, Blank, Exact, Preserved;
      ghost var s := dev.State();
      PreservedSelf(s);
      var v := dev.GetVcount(b);
      if v == 0 {
        // new block
        WipedFree(s, View(), b);
        dev.Erase(b);
        assert dev.State() == s.(nand := Wiped(s.nand, b));
      }
    }

    // The head of the free list, erased, becomes the empty block.
    method TakeEmpty(ghost vtBlock: int)
      requires Valid() && gcBlk == VC_MAX && freeList != [] && Shaped(dev.State()) && Placed(dev.State())
      requires FreeBlk(dev.State(), B(vtBlock)) && Blank(dev.State(), B(vtBlock), 0)
      requires Places(Lists(NOTHING), vtBlock) == 0
      modifies this`freeList, this`gcBlk, dev`nand
      ensures Valid() && Preserved(old(dev.State()), dev.State())
      ensures freeList == old(freeList)[1..] && gcBlk == old(freeList)[0] != VC_MAX
      ensures FreeBlk(dev.State(), B(vtBlock)) && Blank(dev.State(), B(vtBlock), 0)
      ensures Places(Lists(NOTHING), vtBlock) == 0
    {
      hide RestOk, IncInv, Entries, LiveIn, FromCurrent, Shaped, Placed, FreeBlk, Places, Blank, Exact, Preserved;
      ghost var s, b, c := dev.State(), Lists(NOTHING), Writing();
      RestGc(s, bank, b, c, rwStart);
      HeadOfFree(s, bank, b, c, rwStart, vtBlock);
      var freeBlock := freeList[0];
      EraseNew(B(freeBlock));
      RefillRest(s, dev.State(), bank, b, c, rwStart);
      RefillFree(s, dev.State(), bank, b, vtBlock);
      gcBlk := freeBlock;
      freeList := freeList[1..];
      assert Lists(NOTHING) == b.(free := b.free[1..], gc := [b.free[0]]);
    }

    // ---------------------------------------------- do_incremental_GC

    // Some block that may be collected has a superpage's worth of dead pages.
    predicate HasVictim()
      reads this, dev
    {
      exists b :: b in dataList && !Skipped(b, cur, curRW, curJN, curGc) && B(b) in dev.vcount
                  && dev.vcount[B(b)] <= MOST_LIVE
    }

    // The block get_vt_vblock returns.
    ghost predicate NextVictim(v: int)
      reads this`dataList, this`cur, this`curRW, this`curJN, this`curGc, dev
    {
      FirstLeast(dev.vcount, bank, dataList, cur, curRW, curJN, curGc, v)
    }

    // get_vt_vblock
    method LeastVictim() returns (vtBlock: int)
      requires Valid() && HasVictim()
      ensures vtBlock in dataList && !Skipped(vtBlock, cur, curRW, curJN, curGc) && B(vtBlock) in dev.vcount
      ensures NextVictim(vtBlock)
    {
      hide RestOk, IncInv, Entries, LiveIn, FromCurrent;
      DataCounts(dev.State(), bank, Lists(NOTHING), Writing(), rwStart);
      vtBlock := GetVictim(dev, bank, dataList, cur, curRW, curJN, curGc);
    }

    // Choosing a victim; it is read unless it holds no live page.
    method ChooseVictim() returns (vtBlock: int)
      requires Valid() && !reading && HasVictim()
      modifies this`dataList, this`victims, this`buffered, this`curVt, this`reading, this`at
      ensures Valid() && vtBlock in old(dataList) && !Skipped(vtBlock, cur, curRW, curJN, curGc) && index == old(index)
      ensures forall rest :: Lists(rest) == Apply(old(Lists(rest)), Choose(vtBlock))
      ensures old(NextVictim(vtBlock)) && (reading ==> at == 0) && buffered == 0
      ensures reading <==> B(vtBlock) in dev.vcount && dev.vcount[B(vtBlock)] != 0
    {
      hide RestOk, IncInv, Entries, LiveIn, FromCurrent, Exact, Carried, Shaped, Placed, Choosable, Without,
           Skipped, NoDup, FirstLeast;
      ghost var s := dev.State();
      IncEntries(s, View());
      vtBlock := LeastVictim();
      ChooseRest(s, bank, Lists(NOTHING), Writing(), rwStart, vtBlock);
      AddVictim(vtBlock);
      dataList := Without(dataList, vtBlock);
    }

    method AddVictim(vtBlock: int)
      requires Core() && index < SLOTS && !reading && curVt == VC_MAX && 0 <= vtBlock < NO_BLOCK && vtBlock !in victims
      requires Shaped(dev.State()) && Placed(dev.State()) && Choosable(dev.State(), B(vtBlock))
      requires B(vtBlock) in dev.vcount
      modifies this`victims, this`buffered, this`curVt, this`reading, this`at
      ensures buffered == 0 && Core() && victims == old(victims) + [vtBlock] && (reading <==> curVt != VC_MAX)
      ensures reading ==> curVt == vtBlock * BLK_PAGES
      ensures (reading <==> dev.vcount[B(vtBlock)] != 0) && (reading ==> at == 0)
    {
      hide RestOk, IncInv, Entries, LiveIn, FromCurrent, Exact, Carried, Shaped, Placed, Choosable;
      ghost var s, g := dev.State(), View();
      victims := victims + [vtBlock];
      buffered := 0;
      var vcount := dev.GetVcount(B(vtBlock));
      ChosenEmpty(s, g, vtBlock);
      ChooseOk(s, g, vtBlock, vcount != 0);
      reading, at := vcount != 0, 0;
      if vcount != 0 {
        curVt := vtBlock * BLK_PAGES;
      }
      assert View() == Chosen(g, vtBlock, vcount != 0);
    }

    // A bit is set of some half before position `to`.
    ghost predicate NoBits(vtBlock: int, from: int, to: int)
      reads dev
    {
      forall p: Place :: InBlock(p) && p.blk == B(vtBlock) && from <= Pos(p) < to ==> p !in dev.bits
    }

    // The next page of the victim one of whose bits is set.
    method FindPage(vtBlock: int) returns (found: bool, vtVpn: int)
      requires Valid() && reading && vtBlock == victims[|victims| - 1]
      modifies this`at
      ensures Busy() && at % 2 == 0 && old(at) <= at <= BLK_LPAGES && vtVpn == vtBlock * BLK_PAGES + at / 2
      ensures at == NextRead(dev.bits, B(vtBlock), old(at)) && NoBits(vtBlock, old(at), at)
      ensures (found <==> at < BLK_LPAGES) && (found ==> HasBits(dev.bits, B(vtBlock), at))
    {
      hide RestOk, IncInv, Entries, FromCurrent, Shaped, Placed, LiveHalves;
      found, vtVpn := false, curVt;
      while !found && vtVpn / BLK_PAGES == vtBlock
        invariant Busy() && at % 2 == 0 && old(at) <= at <= BLK_LPAGES && vtVpn == vtBlock * BLK_PAGES + at / 2
        invariant NoBits(vtBlock, old(at), at)
        invariant NextRead(dev.bits, B(vtBlock), at) == NextRead(dev.bits, B(vtBlock), old(at))
        invariant found ==> at < BLK_LPAGES && HasBits(dev.bits, B(vtBlock), at)
        decreases !found, BLK_LPAGES - at
      {
        var plane, page := vtVpn % BLK_PAGES / PAGES_PER_BLK, vtVpn % PAGES_PER_BLK;
        var place0, place1 := Nand(B(vtBlock), page, plane * 2), Nand(B(vtBlock), page, plane * 2 + 1);
        PageOfVpn(vtBlock, at, vtVpn);
        if place0 in dev.bits || place1 in dev.bits {
          found := true;
          assert InBlock(if place0 in dev.bits then place0 else place1);
        } else {
          PassHalf(place0);
          PassHalf(place1);
          PagePassed(vtBlock, place0, place1, old(at), at - 2);
          vtVpn := vtVpn + 1;
        }
      }
    }

    // Both halves of a page have no bit set.
    lemma PagePassed(vtBlock: int, p0: Place, p1: Place, from: int, to: int)
      requires InBlock(p0) && InBlock(p1) && p0.blk == p1.blk == B(vtBlock) && Pos(p0) == to && Pos(p1) == to + 1
      requires p0 !in dev.bits && p1 !in dev.bits && NoBits(vtBlock, from, to)
      ensures NoBits(vtBlock, from, to + 2) && !HasBits(dev.bits, B(vtBlock), to)
    {
      forall p: Place | InBlock(p) && p.blk == B(vtBlock) && to <= Pos(p) < to + 2
        ensures p == p0 || p == p1
      {
        if Pos(p) == to { PosInjective(p, p0); } else { PosInjective(p, p1); }
      }
    }

    // A half that is not live is passed over.
    ghost method PassHalf(p: Place)
      requires Busy() && reading && InBlock(p) && p.blk == Cur(View()) && Pos(p) == at
      requires p !in dev.bits || forall l :: 0 <= l < |dev.table| ==> dev.table[l] != p
      modifies this`at
      ensures Busy() && at == old(at) + 1
    {
      hide RestOk, IncInv, Entries;
      ghost var s, g := dev.State(), View();
      IncEntries(s, g);
      BitmapExact(s, g, p);
      SkipHalf(s, g, p);
      at := at + 1;
      assert View() == g.(at := at);
    }

    // The next page of the victim with a set bit, and its live halves.
    method ReadNext(vtBlock: int) returns (wrote: bool, stopped: bool, vtVpn: int)
      requires Valid() && reading && vtBlock == victims[|victims| - 1]
      modifies this`curGc, this`gcBlk, this`dataList, this`index, this`buffered, this`second, this`origin, this`at,
               dev, lpns, buf
      ensures Busy() && index < SLOTS && Preserved(old(dev.State()), dev.State())
      ensures !stopped ==> vtVpn == vtBlock * BLK_PAGES + at / 2 && at % 2 == 0 && old(at) < at <= BLK_LPAGES
      ensures !wrote ==> dev.State() == old(dev.State()) && gcBlk == old(gcBlk)
      ensures stopped ==> !wrote && !TargetReady() && index + 2 >= SLOTS && Valid() && index == old(index)
      ensures stopped ==> !old(TargetReady())
      ensures stopped <==> old(index + NextHalves(dev.State(), B(vtBlock), at) >= SLOTS && !TargetReady())
      ensures wrote <==> old(index + NextHalves(dev.State(), B(vtBlock), at) >= SLOTS && TargetReady())
      ensures curGc == if wrote then old(NextGc()) else old(curGc)
      ensures !stopped ==>
        && at == old(Onward(dev.State(), B(vtBlock), at))
        && index == (old(index) + old(NextHalves(dev.State(), B(vtBlock), at))) % SLOTS
    {
      hide RestOk, IncInv, Entries, FromCurrent, Carried, Counted, Blank, Shaped, Placed, HasBits, NextRead, Preserved;
      ghost var g := View();
      IncEntries(dev.State(), g);
      PreservedSelf(dev.State());
      var found;
      found, vtVpn := FindPage(vtBlock);
      wrote, stopped := false, false;
      if found {
        wrote, stopped := ReadFound(vtBlock, vtVpn, g);
        vtVpn := vtVpn + 1;
      }
    }

    // That page; nothing has happened if the code stops there.
    method ReadFound(vtBlock: int, vtVpn: int, ghost g: Inc) returns (wrote: bool, stopped: bool)
      requires Busy() && index < SLOTS && reading && vtBlock == victims[|victims| - 1]
      requires at % 2 == 0 && 0 <= at < BLK_LPAGES && vtVpn == vtBlock * BLK_PAGES + at / 2
      requires HasBits(dev.bits, B(vtBlock), at) && IncInv(dev.State(), g) && View().(at := g.at) == g
      modifies this`curGc, this`gcBlk, this`dataList, this`index, this`buffered, this`second, this`origin, this`at,
               dev, lpns, buf
      ensures Busy() && index < SLOTS && Preserved(old(dev.State()), dev.State()) && (!stopped ==> at == old(at) + 2)
      ensures !wrote ==> dev.State() == old(dev.State()) && gcBlk == old(gcBlk)
      ensures stopped <==> old(index + LiveHalves(dev.table, B(vtBlock), at) >= SLOTS && !TargetReady())
      ensures wrote <==> old(index + LiveHalves(dev.table, B(vtBlock), at) >= SLOTS && TargetReady())
      ensures curGc == if wrote then old(NextGc()) else old(curGc)
      ensures !stopped ==> index == (old(index) + old(LiveHalves(dev.table, B(vtBlock), at))) % SLOTS
      ensures stopped ==> !wrote && !TargetReady() && index + 2 >= SLOTS && View() == g && !old(TargetReady())
    {
      hide RestOk, IncInv, Entries, FromCurrent, Preserved, HasBits, LiveHalves;
      var plane, page := vtVpn % BLK_PAGES / PAGES_PER_BLK, vtVpn % PAGES_PER_BLK;
      PageOfVpn(vtBlock, at, vtVpn);
      SetPage(dev.State(), View(), plane, page);
      wrote, stopped := ReadPair(vtBlock, plane, page);
      if stopped {
        GoBack(g);
      }
    }

    // Nothing has been entered: reading has not moved on.
    ghost method GoBack(g: Inc)
      requires Busy() && IncInv(dev.State(), g) && View().(at := g.at) == g && reading
      modifies this`at
      ensures Busy() && View() == g
    {
      hide RestOk, IncInv, Entries, FromCurrent;
      var g1 := View();
      at := g.at;
      assert View() == g && FromCurrent(g) == FromCurrent(g1) by { SameCurrent(g1, g); }
    }

    // Both halves of one page.  The code stops if they fill the buffer and the
    // superpage it is to be written to is missing.
    method ReadPair(vtBlock: int, plane: int, page: int) returns (wrote: bool, stopped: bool)
      requires Busy() && index < SLOTS && reading && vtBlock == victims[|victims| - 1]
      requires 0 <= page < PAGES_PER_BLK && 0 <= plane < PLANES && at == (plane * PAGES_PER_BLK + page) * 2
      requires (B(vtBlock), page) in dev.nand
      modifies this`curGc, this`gcBlk, this`dataList, this`index, this`buffered, this`second, this`origin, this`at,
               dev, lpns, buf
      ensures Busy() && index < SLOTS && Preserved(old(dev.State()), dev.State()) && (!stopped ==> at == old(at) + 2)
      ensures !wrote ==> dev.State() == old(dev.State()) && gcBlk == old(gcBlk)
      ensures stopped <==> old(index + LiveHalves(dev.table, B(vtBlock), at) >= SLOTS && !TargetReady())
      ensures wrote <==> old(index + LiveHalves(dev.table, B(vtBlock), at) >= SLOTS && TargetReady())
      ensures stopped ==> !wrote && !TargetReady() && View() == old(View())
      ensures !stopped ==> index == (old(index) + old(LiveHalves(dev.table, B(vtBlock), at))) % SLOTS
      ensures curGc == if wrote then old(NextGc()) else old(curGc)
    {
      hide RestOk, IncInv, Entries, FromCurrent, Carried, Counted, Blank, Shaped, Placed, Resolve, LiveHalves,
           TargetReady;
      ghost var s := dev.State();
      IncEntries(s, View());
      PreservedSelf(s);
      var place0, place1 := Nand(B(vtBlock), page, plane * 2), Nand(B(vtBlock), page, plane * 2 + 1);
      var lpn0, valid0, lpn1, valid1 := ReadVictimPage(page, plane);
      PageHalves(dev.table, B(vtBlock), plane, page, valid0, valid1);
      wrote, stopped := false, index + (if valid0 then 1 else 0) + (if valid1 then 1 else 0) >= SLOTS && !TargetReady();
      if !stopped {
        wrote := EnterPair(place0, lpn0, valid0, place1, lpn1, valid1);
      }
    }

    method EnterPair(p0: Place, lpn0: int, valid0: bool, p1: Place, lpn1: int, valid1: bool) returns (wrote: bool)
      requires HalfReady(p0, lpn0, valid0) && 0 <= index < SLOTS
      requires index + (if valid0 then 1 else 0) + (if valid1 then 1 else 0) >= SLOTS ==> TargetReady()
      requires InBlock(p1) && p1.blk == p0.blk && Pos(p1) == at + 1
      requires TestedBit(p1, lpn1, valid1, if valid0 then Base() + index + 1 else Base() + index)
      modifies this`curGc, this`gcBlk, this`dataList, this`index, this`buffered, this`second, this`origin, this`at,
               dev, lpns, buf
      ensures Busy() && index < SLOTS && Preserved(old(dev.State()), dev.State()) && at == old(at) + 2
      ensures !wrote ==> dev.State() == old(dev.State()) && gcBlk == old(gcBlk)
      ensures var n := old(index) + (if valid0 then 1 else 0) + (if valid1 then 1 else 0);
        (wrote <==> n >= SLOTS) && index == n % SLOTS
      ensures curGc == if wrote then old(NextGc()) else old(curGc)
    {
      hide RestOk, IncInv, Entries, FromCurrent, Carried, Counted, Blank, Shaped, Placed, Resolve, Upper, TestedBit,
           HalfReady, Preserved, Busy, TargetReady;
      ghost var s := dev.State();
      wrote := PushLower(p0, lpn0, valid0, p1, lpn1, valid1);
      var again := PushUpper(p1, lpn1, valid1, s);
      wrote := wrote || again;
    }

    // The lower half; the upper one is as it was read, and lies where it will
    // be entered.
    method PushLower(p0: Place, lpn0: int, valid0: bool, p1: Place, lpn1: int, valid1: bool) returns (wrote: bool)
      requires HalfReady(p0, lpn0, valid0)
      requires index + (if valid0 then 1 else 0) + (if valid1 then 1 else 0) >= SLOTS ==> TargetReady()
      requires InBlock(p1) && p1.blk == p0.blk && Pos(p1) == at + 1
      requires TestedBit(p1, lpn1, valid1, if valid0 then Base() + index + 1 else Base() + index)
      modifies this`curGc, this`gcBlk, this`dataList, this`index, this`buffered, this`second, this`origin, this`at,
               dev, lpns, buf
      ensures Upper(p1, lpn1, valid1, old(dev.State())) && at == old(at) + 1
      ensures !wrote ==> dev.State() == old(dev.State()) && gcBlk == old(gcBlk)
      ensures Entered(old(index), old(curGc), old(NextGc()), valid0, wrote)
    {
      hide RestOk, IncInv, Entries, FromCurrent, Carried, Counted, Blank, Shaped, Placed, Resolve;
      ghost var s := dev.State();
      wrote := PushOrPass(p0, lpn0, valid0, valid1);
      IncEntries(dev.State(), View());
      assert |dev.table| == |s.table|;
    }

    // A half has been entered if it is `valid`, and then written if it was the eighth.
    predicate Entered(index0: int, curGc0: int, next: int, valid: bool, wrote: bool)
      reads this
    {
      && (wrote <==> valid && index0 == SLOTS - 1) && index == (index0 + if valid then 1 else 0) % SLOTS
      && curGc == if wrote then next else curGc0
    }

    ghost predicate Upper(p: Place, lpn: int, valid: bool, s: Flash)
      reads this, dev, lpns, buf
    {
      && Busy() && index < SLOTS && reading && victims != [] && InBlock(p) && p.blk == B(victims[|victims| - 1])
        && Pos(p) == at
      && Preserved(s, dev.State())
      && (valid ==> 0 <= lpn < |s.table| && s.table[lpn] == p && dev.table[lpn] == p
                    && Resolve(s, lpn) == Stored(buf[Base() + index]))
      && (!valid ==> forall l :: 0 <= l < |dev.table| ==> dev.table[l] != p)
      && (valid && index == SLOTS - 1 ==> TargetReady())
    }

    // The upper half, once the lower one has been dealt with.
    method PushUpper(p: Place, lpn: int, valid: bool, ghost s: Flash) returns (wrote: bool)
      requires Upper(p, lpn, valid, s)
      modifies this`curGc, this`gcBlk, this`dataList, this`index, this`buffered, this`second, this`origin, this`at,
               dev, lpns, buf
      ensures Busy() && index < SLOTS && at == old(at) + 1 && Preserved(s, dev.State())
      ensures !wrote ==> dev.State() == old(dev.State()) && gcBlk == old(gcBlk)
      ensures Entered(old(index), old(curGc), old(NextGc()), valid, wrote)
    {
      hide RestOk, IncInv, Entries, FromCurrent, Carried, Counted, Blank, Shaped, Placed, Resolve;
      ghost var s1 := dev.State();
      IncEntries(s1, View());
      SecondHalf(s, s1, p, lpn, valid);
      wrote := PushOrPass(p, lpn, valid, false);
      IncEntries(dev.State(), View());
      PreservedTrans(s, s1, dev.State());
    }

    // The half at `p` comes next, and has been read and tested.
    ghost predicate HalfReady(p: Place, lpn: int, valid: bool)
      reads this, dev, lpns, buf
    {
      && Busy() && index < SLOTS && reading && victims != [] && InBlock(p) && p.blk == B(victims[|victims| - 1])
        && Pos(p) == at
      && TestedBit(p, lpn, valid, Base() + index) && (valid && index == SLOTS - 1 ==> TargetReady())
    }

    method PushOrPass(p: Place, lpn: int, valid: bool, carry: bool) returns (wrote: bool)
      requires HalfReady(p, lpn, valid)
      modifies this`curGc, this`gcBlk, this`dataList, this`index, this`buffered, this`second, this`origin, this`at,
               dev, lpns, buf
      ensures Busy() && index < SLOTS && at == old(at) + 1 && Preserved(old(dev.State()), dev.State())
      ensures carry ==> buf[Base() + index] == old(buf[Base() + if valid then index + 1 else index])
      ensures !wrote ==> curGc == old(curGc) && gcBlk == old(gcBlk) && dev.State() == old(dev.State())
      ensures !wrote ==> index == old(index) + if valid then 1 else 0
      ensures wrote <==> valid && old(index) == SLOTS - 1
      ensures wrote ==> index == 0 && curGc == old(NextGc())
      ensures forall l :: 0 <= l < |dev.table| && Unread(View(), old(dev.table)[l]) ==>
        dev.table[l] == old(dev.table)[l]
      ensures forall l :: 0 <= l < |dev.table| && Unread(View(), dev.table[l]) ==> dev.table[l] == old(dev.table)[l]
    {
      hide RestOk, IncInv, Entries, FromCurrent, Carried, Counted, Blank, Shaped, Placed, Resolve;
      IncEntries(dev.State(), View());
      PreservedSelf(dev.State());
      if valid {
        wrote := PushHalf(p, lpn, carry);
      } else {
        wrote := false;
        PassHalf(p);
      }
    }

    // A victim that counts nothing is there, or will be chosen.
    predicate Due()
      reads this, dev
    {
      || Used(victims)
      || (curVt == VC_MAX
          && exists b :: b in dataList && !Skipped(b, cur, curRW, curJN, curGc) && B(b) in dev.vcount
                         && dev.vcount[B(b)] == 0)
    }

    // None of the code's assertions is in the way of a step.
    predicate CanStep()
      reads this, dev
    {
      && (Due() ==> EraseReady()) && (index + 2 >= SLOTS ==> TargetReady())
      && (curVt != VC_MAX || HasVictim() || HeadEmpty())
    }

    // No assertion is in the way once the victim has been chosen.
    predicate Unhindered()
      reads this, dev
    {
      (Used(victims) ==> EraseReady()) && (index + 2 >= SLOTS ==> TargetReady())
    }

    // What the code stops at: no victim to choose, no block to replace a used
    // empty block, or no block for the next superpage.
    predicate Stuck()
      reads this, dev
    {
      || (curVt == VC_MAX && !HasVictim() && !HeadEmpty())
      || (Used(victims) && !EraseReady())
      || (index + 2 >= SLOTS && !TargetReady())
    }

    predicate HeadEmpty()
      reads this, dev
    {
      victims != [] && B(victims[0]) in dev.vcount && dev.vcount[B(victims[0])] == 0
    }

    // The halves the next step enters, if it chooses `chosen` or goes on reading.
    ghost function Fill(chosen: int): nat
      requires Arrays()
      reads this, dev, lpns
    {
      if HeadEmpty() then 0
      else if chosen != NIL then Coming(dev.State(), B(chosen), 0, 0)
      else if reading && victims != [] then Coming(dev.State(), B(victims[|victims| - 1]), at, buffered)
      else 0
    }

    // Where reading goes on after it: behind the next page with a bit set.
    ghost function Resume(chosen: int): int
      reads this, dev
    {
      if HeadEmpty() then at
      else if chosen != NIL then Onward(dev.State(), B(chosen), 0)
      else if victims == [] || (B(victims[|victims| - 1]) in dev.vcount
        && dev.vcount[B(victims[|victims| - 1])] == 0) then at
      else Onward(dev.State(), B(victims[|victims| - 1]), at)
    }

    // The victims, with the one chosen.
    function With(chosen: int): seq<int>
      reads this
    {
      victims + if chosen == NIL then [] else [chosen]
    }

    // do_incremental_GC: a victim is chosen if none is being read and the first
    // one is not used up; unless it is, the next page is read, and if its live
    // halves fill the buffer, that is written; if not, the first victim used up
    // is given back.  `chosen` and `gone` are these victims.  It stops where a
    // victim, the superpage to write or the block to replace GC_BLK is missing.
    method DoIncrementalGC() returns (ret: bool, stopped: bool, ghost chosen: int, ghost gone: int)
      requires Valid()
      modifies this, dev, lpns, buf
      ensures Valid() && Preserved(old(dev.State()), dev.State())
      ensures chosen != NIL <==> old(curVt == VC_MAX && HasVictim() && !HeadEmpty())
      ensures chosen != NIL ==> !old(reading) && chosen in old(dataList) && old(NextVictim(chosen))
      ensures curGc == old(if index + Fill(chosen) >= SLOTS && TargetReady() then NextGc() else curGc)
      ensures gone != NIL <==> !stopped && old(index + Fill(chosen) < SLOTS && Used(With(chosen)))
      ensures ret <==> gone != NIL || curGc != old(curGc)
      ensures if gone == NIL then victims == old(With(chosen))
        else FirstUsed(old(dev.vcount), bank, old(With(chosen)), gone)
             && victims == Without(old(With(chosen)), gone) && gone in freeList
      ensures gone != NIL ==> Blank(dev.State(), B(gone), 0) && NoneIn(gone)
      ensures !ret ==> dev.State() == old(dev.State())
      ensures stopped <==>
        || old(curVt == VC_MAX && !HasVictim() && !HeadEmpty())
        || old(index + Fill(chosen) >= SLOTS && !TargetReady())
        || old(index + Fill(chosen) < SLOTS && Used(With(chosen)) && !EraseReady())
      ensures stopped ==> Stuck()
      ensures !stopped ==> index == old(index + Fill(chosen)) % SLOTS
      ensures !stopped && reading ==> at == old(Resume(chosen))
      ensures old(CanStep()) ==> !stopped
    {
      hide RestOk, IncInv, Entries, FromCurrent, Blank, Shaped, Placed, LiveIn, HasVictim, Given, Preserved, NoneIn,
           Without, Stuck, CanStep, NextHalves, Onward, FirstUsed, FirstLeast, HeadEmpty, Fill, Resume, Next,
           With, Used;
      IncEntries(dev.State(), View());
      PreservedSelf(dev.State());
      ret, gone := false, NIL;
      var vtBlock, empty;
      vtBlock, empty, stopped, chosen := Pick();
      if !stopped {
        ret, stopped, gone := Advance(vtBlock, empty);
      }
    }

    // The victim to go on with, and what that means for the step.
    method Pick() returns (vtBlock: int, empty: bool, stopped: bool, ghost chosen: int)
      requires Valid()
      modifies this`dataList, this`victims, this`buffered, this`curVt, this`reading, this`at
      ensures Valid()
      ensures !stopped && empty ==> victims != [] && Used(victims)
      ensures !stopped && !empty ==> victims != [] && reading && vtBlock == victims[|victims| - 1]
      ensures stopped <==> old(curVt == VC_MAX && !HasVictim() && !HeadEmpty())
      ensures stopped ==> Stuck() && old(Fill(chosen)) == 0
      ensures old(CanStep()) ==> !stopped && Unhindered()
      ensures chosen != NIL <==> old(curVt == VC_MAX && HasVictim() && !HeadEmpty())
      ensures chosen != NIL ==> !old(reading) && chosen in old(dataList) && old(NextVictim(chosen))
      ensures victims == old(With(chosen))
      ensures !stopped ==> Next(vtBlock, empty) == old(Fill(chosen))
      ensures !stopped && reading ==>
        (if empty then at else Onward(dev.State(), B(vtBlock), at)) == old(Resume(chosen))
    {
      hide RestOk, IncInv, Entries, FromCurrent, Blank, Shaped, Placed, LiveIn, HasVictim, Given, Preserved, NoneIn,
           Without, Stuck, CanStep, NextHalves, Onward, FirstUsed, FirstLeast, HeadEmpty;
      IncEntries(dev.State(), View());
      vtBlock, empty, stopped, chosen := PickVictim();
    }

    // The halves that will be entered from the victim picked.
    ghost function Next(vtBlock: int, empty: bool): nat
      reads this, dev
    {
      if empty then 0 else Coming(dev.State(), B(vtBlock), at, buffered)
    }

    // The step once a victim has been picked: reading, unless some victim is
    // known to be used up, and an erasure if nothing was written.
    method Advance(vtBlock: int, empty: bool) returns (ret: bool, stopped: bool, ghost gone: int)
      requires Valid() && victims != [] && (if empty then Used(victims)
        else reading && vtBlock == victims[|victims| - 1])
      modifies this, dev, lpns, buf
      ensures Valid() && Preserved(old(dev.State()), dev.State())
      ensures curGc == old(if index + Next(vtBlock, empty) >= SLOTS && TargetReady() then NextGc() else curGc)
      ensures gone != NIL <==> !stopped && old(index + Next(vtBlock, empty) < SLOTS && Used(victims))
      ensures ret <==> gone != NIL || curGc != old(curGc)
      ensures if gone == NIL then victims == old(victims)
        else FirstUsed(old(dev.vcount), bank, old(victims), gone)
             && victims == Without(old(victims), gone) && gone in freeList
      ensures gone != NIL ==> Blank(dev.State(), B(gone), 0) && NoneIn(gone)
      ensures !ret ==> dev.State() == old(dev.State())
      ensures stopped <==>
        || old(index + Next(vtBlock, empty) >= SLOTS && !TargetReady())
        || old(index + Next(vtBlock, empty) < SLOTS && Used(victims) && !EraseReady())
      ensures stopped ==> Stuck()
      ensures !stopped ==> index == old(index + Next(vtBlock, empty)) % SLOTS
      ensures reading ==> old(reading)
      ensures !stopped && reading ==> at == old(if empty then at else Onward(dev.State(), B(vtBlock), at))
      ensures old(Unhindered()) ==> !stopped
    {
      hide RestOk, IncInv, Entries, FromCurrent, Blank, Shaped, Placed, LiveIn, Given, Preserved, NoneIn, Without,
           SomeUsed, Stuck, Coming, Onward, FirstUsed, IsVictim;
      IncEntries(dev.State(), View());
      PreservedSelf(dev.State());
      ret, stopped, gone := false, false, NIL;
      if !empty {
        ret, stopped := ReadStep(vtBlock);
      }
      if !ret && !stopped {
        ret, stopped, gone := EraseStep();
      }
    }

    // A victim that is used up, if there is one, is given back.
    method EraseStep() returns (ret: bool, stopped: bool, ghost gone: int)
      requires Valid() && victims != []
      modifies this`curVt, this`reading, this`victims, this`freeList, this`gcBlk, dev`nand, dev`vcount
      ensures Valid() && Preserved(old(dev.State()), dev.State()) && (reading ==> old(reading))
      ensures ret <==> gone != NIL
      ensures (stopped <==> old(Used(victims) && !EraseReady())) && (ret <==> old(Used(victims) && EraseReady()))
      ensures stopped ==> Stuck()
      ensures ret ==> FirstUsed(old(dev.vcount), bank, old(victims), gone)
      ensures ret ==> gone in old(victims) && victims == Without(old(victims), gone) && gone in freeList
      ensures ret ==> Blank(dev.State(), B(gone), 0) && NoneIn(gone)
      ensures !ret ==> dev.State() == old(dev.State()) && reading == old(reading)
      ensures !ret ==> forall rest :: Lists(rest) == old(Lists(rest))
    {
      hide RestOk, IncInv, Entries, FromCurrent, Blank, Shaped, Placed, LiveIn, Given, Preserved, NoneIn, Without, Used;
      ghost var b := Lists(NOTHING);
      RestRange(dev.State(), bank, b, Writing(), rwStart);
      var erased;
      ghost var v;
      erased, stopped, v := EraseVictimBlock();
      ret := erased != 0;
      gone := if ret then v else NIL;
      if ret { GivenLists(b, v); }
    }

    lemma GivenLists(b: Bank, v: int)
      requires v in b.victims && (b.gc == [] ==> b.free != [])
      ensures Given(b, v).victims == Without(b.victims, v) && v in Given(b, v).free
    {
    }

    // The victim to read from; `empty` if some victim is ready to be erased.
    method PickVictim() returns (vtBlock: int, empty: bool, stopped: bool, ghost chosen: int)
      requires Valid()
      modifies this`dataList, this`victims, this`buffered, this`curVt, this`reading, this`at
      ensures Valid() && (!stopped ==> victims != [])
      ensures !empty && !stopped ==> reading && vtBlock == victims[|victims| - 1]
      ensures empty && !stopped ==> Used(victims)
      ensures stopped <==> old(curVt == VC_MAX && !HasVictim() && !HeadEmpty())
      ensures stopped ==> chosen == NIL && Stuck()
      ensures old(CanStep()) ==> !stopped && Unhindered()
      ensures old(HeadEmpty()) ==> empty && chosen == NIL
      ensures chosen != NIL <==> old(curVt == VC_MAX && HasVictim() && !HeadEmpty())
      ensures chosen != NIL ==> old(NextVictim(chosen)) && (empty ==> !reading)
      ensures buffered == if chosen == NIL then old(buffered) else 0
      ensures !stopped && !old(HeadEmpty()) ==>
        && vtBlock == victims[|victims| - 1] && B(vtBlock) in dev.vcount && (empty <==> dev.vcount[B(vtBlock)] == 0)
      ensures victims == old(victims) + (if chosen == NIL then [] else [chosen])
      ensures chosen != NIL ==> !old(reading) && chosen in old(dataList) && (reading ==> at == 0)
      ensures chosen == NIL ==> at == old(at) && (reading <==> old(reading))
    {
      hide RestOk, IncInv, Entries, FromCurrent, Carried, Counted, Blank, Shaped, Placed, Resolve, LiveIn, HasVictim;
      vtBlock, empty, stopped, chosen := VC_MAX, true, false, NIL;
      var used := HeadUsed();
      if used {
        return;
      }
      vtBlock, stopped, chosen := Continue();
      if !stopped {
        var v := VictimVcount(vtBlock);
        empty := v == 0;
      }
    }

    // The victim being read, or a new one.
    method Continue() returns (vtBlock: int, stopped: bool, ghost chosen: int)
      requires Valid() && !HeadEmpty()
      modifies this`dataList, this`victims, this`buffered, this`curVt, this`reading, this`at
      ensures Valid() && (!stopped ==> victims != [] && vtBlock == victims[|victims| - 1])
      ensures stopped <==> old(curVt == VC_MAX && !HasVictim())
      ensures stopped ==> chosen == NIL && Stuck()
      ensures !stopped ==> (B(vtBlock) in dev.vcount && dev.vcount[B(vtBlock)] != 0 ==> reading)
      ensures old(CanStep()) ==> !stopped && Unhindered()
      ensures chosen != NIL <==> old(curVt == VC_MAX && HasVictim())
      ensures chosen != NIL ==> old(NextVictim(chosen))
      ensures chosen != NIL ==> (reading <==> B(vtBlock) in dev.vcount && dev.vcount[B(vtBlock)] != 0)
      ensures buffered == if chosen == NIL then old(buffered) else 0
      ensures victims == old(victims) + (if chosen == NIL then [] else [chosen])
      ensures chosen != NIL ==> !old(reading) && chosen in old(dataList) && (reading ==> at == 0)
      ensures chosen == NIL ==> at == old(at) && (reading <==> old(reading))
    {
      hide RestOk, IncInv, Entries, FromCurrent, Carried, Counted, Blank, Shaped, Placed, Resolve, LiveIn, HasVictim;
      vtBlock, stopped, chosen := VC_MAX, false, NIL;
      if curVt == VC_MAX {
        if !HasVictim() {
          stopped := true;
          return;
        }
        vtBlock := PickNew();
        chosen := vtBlock;
      } else {
        vtBlock := curVt / BLK_PAGES;
        IncEntries(dev.State(), View());
      }
    }

    // The first victim is used up.
    method HeadUsed() returns (used: bool)
      requires Valid()
      ensures (used <==> HeadEmpty()) && (used ==> Used(victims) && Due())
    {
      hide RestOk, IncInv, Entries, FromCurrent, LiveIn;
      used := false;
      if |victims| > 0 {
        var v := VictimVcount(victims[0]);
        used := v == 0;
      }
    }

    method VictimVcount(vtBlock: int) returns (v: int)
      requires Valid() && vtBlock in victims
      ensures B(vtBlock) in dev.vcount && v == dev.vcount[B(vtBlock)]
    {
      hide RestOk, IncInv, Entries, FromCurrent, LiveIn;
      VictimCounted(dev.State(), View(), vtBlock);
      v := dev.GetVcount(B(vtBlock));
    }

    method PickNew() returns (vtBlock: int)
      requires Valid() && !reading && HasVictim()
      modifies this`dataList, this`victims, this`buffered, this`curVt, this`reading, this`at
      ensures Valid() && victims == old(victims) + [vtBlock]
      ensures !Skipped(vtBlock, cur, curRW, curJN, curGc) && old(NextVictim(vtBlock)) && buffered == 0
      ensures vtBlock in old(dataList) && 0 <= vtBlock && (reading ==> at == 0)
      ensures reading <==> B(vtBlock) in dev.vcount && dev.vcount[B(vtBlock)] != 0
    {
      hide RestOk, IncInv, Entries, FromCurrent, Carried, Counted, Blank, Shaped, Placed, LiveIn;
      RestRange(dev.State(), bank, Lists(NOTHING), Writing(), rwStart);
      vtBlock := ChooseVictim();
      assert Lists(NOTHING).victims == old(victims) + [vtBlock];
    }

    // Reading one page, unless all live pages of the victim are in the buffer.
    method ReadStep(vtBlock: int) returns (wrote: bool, stopped: bool)
      requires Valid() && reading && vtBlock == victims[|victims| - 1]
      modifies this`curGc, this`gcBlk, this`dataList, this`index, this`buffered, this`second, this`origin, this`at
      modifies this`curVt, this`reading, dev, lpns, buf
      ensures Valid() && Preserved(old(dev.State()), dev.State())
      ensures !stopped && reading ==> at > old(at) && at == old(Onward(dev.State(), B(vtBlock), at))
      ensures stopped <==> old(index + Coming(dev.State(), B(vtBlock), at, buffered) >= SLOTS && !TargetReady())
      ensures wrote <==> old(index + Coming(dev.State(), B(vtBlock), at, buffered) >= SLOTS && TargetReady())
      ensures curGc == if wrote then old(NextGc()) else old(curGc)
      ensures !stopped ==> index == (old(index) + old(Coming(dev.State(), B(vtBlock), at, buffered))) % SLOTS
      ensures !wrote ==> gcBlk == old(gcBlk) && dev.State() == old(dev.State())
      ensures stopped ==> !wrote && Stuck()
      ensures old(Unhindered()) ==> !stopped && (!wrote && Used(victims) ==> EraseReady())
    {
      hide RestOk, IncInv, Entries, FromCurrent, Carried, Counted, Blank, Shaped, Placed, Resolve, LiveIn;
      var vtVpn;
      wrote, stopped, vtVpn := ReadMore(vtBlock);
      if !stopped {
        CloseStep(vtBlock, vtVpn);
      }
    }

    method ReadMore(vtBlock: int) returns (wrote: bool, stopped: bool, vtVpn: int)
      requires Valid() && reading && vtBlock == victims[|victims| - 1]
      modifies this`curGc, this`gcBlk, this`dataList, this`index, this`buffered, this`second, this`origin, this`at,
               dev, lpns, buf
      ensures Busy() && index < SLOTS && Preserved(old(dev.State()), dev.State())
      ensures !stopped ==> vtVpn == vtBlock * BLK_PAGES + at / 2 && at % 2 == 0 && 0 <= at <= BLK_LPAGES
      ensures !stopped ==>
        at > old(at) || (at == old(at) && B(vtBlock) in dev.vcount && buffered >= dev.vcount[B(vtBlock)])
      ensures !wrote ==> dev.State() == old(dev.State()) && gcBlk == old(gcBlk)
      ensures stopped ==> !wrote && !TargetReady() && index + 2 >= SLOTS && Valid() && index == old(index)
      ensures stopped ==> !old(TargetReady())
      ensures stopped <==> old(index + Coming(dev.State(), B(vtBlock), at, buffered) >= SLOTS && !TargetReady())
      ensures wrote <==> old(index + Coming(dev.State(), B(vtBlock), at, buffered) >= SLOTS && TargetReady())
      ensures curGc == if wrote then old(NextGc()) else old(curGc)
      ensures !stopped ==> index == (old(index) + old(Coming(dev.State(), B(vtBlock), at, buffered))) % SLOTS
      ensures !stopped ==> at == old(at) || at == old(Onward(dev.State(), B(vtBlock), at))
    {
      hide RestOk, IncInv, Entries, FromCurrent, Carried, Counted, Blank, Shaped, Placed, Resolve, LiveIn, TargetReady;
      IncEntries(dev.State(), View());
      PreservedSelf(dev.State());
      wrote, stopped, vtVpn := false, false, curVt;
      assert victims[|victims| - 1] in victims;
      VictimCounted(dev.State(), View(), vtBlock);
      var vcount := dev.GetVcount(B(vtBlock));
      if buffered < vcount {
        wrote, stopped, vtVpn := ReadNext(vtBlock);
      }
    }

    // Where reading goes on next time.
    method CloseStep(vtBlock: int, vtVpn: int)
      requires Busy() && index < SLOTS && reading && vtBlock == victims[|victims| - 1]
      requires at % 2 == 0 && 0 <= at <= BLK_LPAGES && vtVpn == vtBlock * BLK_PAGES + at / 2
      modifies this`curVt, this`reading
      ensures Valid()
      ensures reading ==> B(vtBlock) in dev.vcount && buffered < dev.vcount[B(vtBlock)]
    {
      hide RestOk, IncInv, Entries, FromCurrent, LiveIn;
      ghost var s, g := dev.State(), View();
      IncEntries(s, g);
      assert victims[|victims| - 1] in victims;
      VictimCounted(s, g, vtBlock);
      AllRead(s, g);
      RestRange(s, bank, Lists(NOTHING), Writing(), rwStart);
      var vcount := dev.GetVcount(B(vtBlock));
      curVt := vtVpn;
      if buffered == vcount {
        // no live page is left to read
        StopOk(s, g);
        curVt := VC_MAX;
        reading := false;
        assert View() == g.(reading := false);
      } else if vtVpn / BLK_PAGES != vtBlock {
        // reading past the end leaves nothing unread
        assert false;
      }
    }

    // ---------------------------------------------- whole runs

    // What an action needs: the pages and blocks it names are there, and an
    // erased superpage, an empty block or a victim where it takes one.
    predicate Applies(a: Action)
      requires Shaped(dev.State()) && Placed(dev.State())
      reads this, dev
    {
      match a
      case Overwrites(l, q) => 0 <= l < |dev.table| && dev.table[l].Nand? && dev.table[l].blk.bank == bank && !q.Nand?
      case Remaps(t, o) => Agrees(dev.State(), t, o) && o < rwStart <= t
      case Finishes(x) => x in rwList && !Ongoing(curRW, x) && NoTemps(dev.State(), B(x), rwStart)
      case Writes(kind, slots) => kind != JN && Proper(dev.State(), slots, rwStart, kind) && PageAtHand(kind)
      case Collects => true
    }

    // One action: what the host reads is as the action says, and the invariant
    // holds unless a blanked slot has met a bit left over.  A collection step may
    // stop at an assertion.
    method Perform(a: Action) returns (clean: bool, stopped: bool)
      requires Valid() && Shaped(dev.State()) && Placed(dev.State()) && Applies(a)
      modifies this, dev, lpns, buf
      ensures Shaped(dev.State()) && Placed(dev.State())
      ensures Contents(dev.State()) == Effect(old(Contents(dev.State())), a)
      ensures (Valid() <==> clean) && (!clean ==> a.Writes? && Blanked(a.slots))
      ensures stopped ==> clean && a.Collects? && Stuck() && !old(CanStep())
    {
      hide RestOk, IncInv, FromCurrent, Agrees, Proper, NoTemps, PageAtHand, CanStep, Clean, Contents, Preserved,
           Written, Stuck;
      ghost var s := dev.State();
      clean, stopped := true, false;
      match a {
        case Overwrites(l, q) =>
          HostLetsGo(l, q);
          IncEntries(dev.State(), View());
          OverwriteEffect(s, dev.State(), l, q);
        case Remaps(t, o) =>
          HostRemaps(t, o);
          IncEntries(dev.State(), View());
          RemapEffect(s, dev.State(), t, o);
        case Finishes(x) => LogDone(x);
        case Writes(kind, slots) =>
          clean := WriteSlots(kind, slots);
        case Collects =>
          ghost var chosen, gone;
          var ret;
          ret, stopped, chosen, gone := DoIncrementalGC();
          IncEntries(dev.State(), View());
          PreservedEffect(s, dev.State());
      }
    }

    method WriteSlots(kind: WriteType, slots: seq<Slot>) returns (clean: bool)
      requires Valid() && kind != JN && Proper(dev.State(), slots, rwStart, kind) && PageAtHand(kind)
      modifies this`gcBlk, this`cur, this`curRW, this`curJN, this`curGc, this`dataList, this`freeList, this`rwList,
               this`startedSW, this`startedRW, dev
      ensures Shaped(old(dev.State())) && Placed(old(dev.State())) && Shaped(dev.State()) && Placed(dev.State())
      ensures Contents(dev.State()) == Effect(Contents(old(dev.State())), Writes(kind, slots))
      ensures (Valid() <==> clean) && (!clean ==> Blanked(slots))
    {
      hide RestOk, IncInv, FromCurrent, PageAtHand, Contents;
      ghost var s := dev.State();
      IncEntries(s, View());
      var vpn := HostWrites(kind, slots);
      WriteEffect(s, dev.State(), kind, slots);
      clean := Clean(dev.State(), slots, B(vpn / PAGES_PER_BLK), vpn % PAGES_PER_BLK);
    }

    // The host's actions and the collector's steps, in any order: as many as can
    // be taken, each with its effect on what the host reads.
    method Run(actions: seq<Action>) returns (done: nat, clean: bool, stopped: bool)
      requires Valid() && Shaped(dev.State()) && Placed(dev.State())
      modifies this, dev, lpns, buf
      ensures Shaped(dev.State()) && Placed(dev.State()) && done <= |actions|
      ensures Contents(dev.State()) == Effects(old(Contents(dev.State())), actions[..done])
      ensures clean <==> Valid()
      ensures clean && !stopped ==> done == |actions| || !Applies(actions[done])
      ensures !clean ==> 0 < done && actions[done - 1].Writes? && Blanked(actions[done - 1].slots)
      ensures stopped ==> clean && 0 < done && actions[done - 1].Collects? && Stuck()
    {
      hide RestOk, IncInv, FromCurrent, Applies, Contents, Stuck, Effects, Effect, Blanked;
      EffectsNone(Contents(dev.State()), actions);
      done, clean, stopped := 0, true, false;
      while done < |actions| && clean && !stopped && Applies(actions[done])
        invariant done <= |actions| && Shaped(dev.State()) && Placed(dev.State()) && (clean <==> Valid())
        invariant Contents(dev.State()) == Effects(old(Contents(dev.State())), actions[..done])
        invariant !clean ==> 0 < done && actions[done - 1].Writes? && Blanked(actions[done - 1].slots)
        invariant stopped ==> clean && 0 < done && actions[done - 1].Collects? && Stuck()
        decreases |actions| - done
      {
        EffectsStep(old(Contents(dev.State())), actions, done);
        clean, stopped := Perform(actions[done]);
        done := done + 1;
      }
    }
  }

  lemma IncEntries(s: Flash, g: Inc)
    requires IncInv(s, g)
    ensures Shaped(s) && Placed(s) && Entries(s, g) && |s.table| <= INVALID_LPN && (g.reading ==> g.victims != [])
    ensures NoDup(g.victims)
  {
  }

  lemma VictimCount(s: Flash, g: Inc, v: int)
    requires IncInv(s, g) && v in g.victims
    ensures |LiveIn(s.table, Blk(g.bank, v))| <= BLK_LPAGES
  {
    LiveBound(s, Blk(g.bank, v));
  }

  lemma DrainStart(s: Flash, s1: Flash, g: Inc, count: int)
    requires IncInv(s, g) && |g.lpns| == |g.data| == SLOTS && s1.vcount == s.vcount && count == |Named(SlotsOf(g))|
    ensures Draining(s, s1.table, g, 0, s1.vcount, count)
  {
    OwedAll(s, g);
    SlotsFacts(s, g);
    ReqSizes(SlotsOf(g), 0);
  }

  lemma TargetFits(s: Flash, s1: Flash, s': Flash, g: Inc, b: Blk, p: int, count: int)
    requires IncInv(s, g) && WriteTarget(s, g, b, p) && MovedTo(s.table, s'.table, SlotsOf(g), b, p)
    requires s'.nand == s.nand[(b, p) := Cells(SlotsOf(g))] && count == |Named(SlotsOf(g))|
    requires forall x :: x in s'.bits <==> x in s.bits || InPage(x, b, p, SlotsOf(g))
    requires forall v :: v in g.victims ==> Counted(s1, Blk(g.bank, v))
    requires forall c :: !IsVictim(g, c) && c in s.vcount ==> c in s1.vcount && s1.vcount[c] == s.vcount[c]
    requires b in s.vcount && s' == s1.(vcount := s1.vcount[b := s.vcount[b] + count])
    requires Shaped(s) && Placed(s) && Carried(s, b) && Counted(s, b)
    ensures BufferWritten(s, s', g, b, p) && 0 <= s'.vcount[b] <= BLK_LPAGES
  {
    WriteMeaning(s, s', g, b, p);
    TargetCounts(s, s', g, b, p);
  }

  lemma EntriesIn(s: Flash, g: Inc)
    requires Shaped(s) && Placed(s) && Entries(s, g) && |g.lpns| == SLOTS
    ensures forall i :: i in Named(SlotsOf(g)) ==> 0 <= SlotsOf(g)[i].req < |s.table|
  {
  }

  lemma SameCurrent(g: Inc, g': Inc)
    requires g' == g.(at := g'.at)
    ensures FromCurrent(g') == FromCurrent(g)
  {
  }

  lemma OneFrom(g: Inc, g': Inc)
    requires forall i :: i in FromCurrent(g') <==> i in FromCurrent(g) || i == |g.lpns|
    ensures |FromCurrent(g')| == |FromCurrent(g)| + 1
  {
    assert |g.lpns| !in FromCurrent(g);
    assert FromCurrent(g') == FromCurrent(g) + {|g.lpns|};
  }

  lemma EntriesNotUnread(s: Flash, g: Inc)
    requires IncInv(s, g)
    ensures forall l :: 0 <= l < |s.table| && Unread(g, s.table[l]) ==> l !in g.lpns
  {
  }

  lemma VictimCounted(s: Flash, g: Inc, v: int)
    requires IncInv(s, g) && v in g.victims
    ensures Blk(g.bank, v) in s.vcount && s.vcount[Blk(g.bank, v)] == |LiveIn(s.table, Blk(g.bank, v))|
    ensures s.vcount[Blk(g.bank, v)] == 0 ==> LiveIn(s.table, Blk(g.bank, v)) == {}
  {
  }

  lemma ChosenEmpty(s: Flash, g: Inc, b: int)
    requires IncInv(s, g) && Shaped(s) && Placed(s) && Choosable(s, Blk(g.bank, b))
    ensures Blk(g.bank, b) in s.vcount && (s.vcount[Blk(g.bank, b)] == 0 ==> LiveIn(s.table, Blk(g.bank, b)) == {})
  {
  }

  lemma SecondHalf(s: Flash, s1: Flash, p: Place, lpn: int, valid: bool)
    requires Preserved(s, s1)
    requires valid ==> 0 <= lpn < |s.table| && s.table[lpn] == p && s1.table[lpn] == p
    requires !valid ==> forall l :: 0 <= l < |s1.table| ==> s1.table[l] != p
    ensures valid ==> Resolve(s1, lpn) == Resolve(s, lpn)
  {
  }

  // ------------------------------------------------ parts of the invariant

  lemma OnlyPage(s: Flash, n: int, b: Bank, c: Cursors, start: int, l: int)
    requires RestOk(s, n, b, c, start) && 0 <= l < |s.table| && s.table[l].Nand?
    ensures forall m :: 0 <= m < |s.table| && m != l ==> s.table[m] != s.table[l]
  {
  }

  // The page handed over is in no victim.
  lemma HandOutside(s: Flash, n: int, b: Bank, c: Cursors, start: int, t: int, o: int, g: Inc)
    requires RestOk(s, n, b, c, start) && Shaped(s) && Placed(s) && Agrees(s, t, o) && 0 <= o < start <= t
    requires g.victims == b.victims && g.bank == n
    ensures !IsVictim(g, s.table[t].blk) && Shaped(HandOver(s, t, o)) && Placed(HandOver(s, t, o))
  {
    ApartFacts(b);
  }

  lemma EmptyApart(s: Flash, n: int, b: Bank, c: Cursors, start: int)
    requires RestOk(s, n, b, c, start)
    ensures forall x :: x in b.gc ==> x !in b.victims
  {
    ApartFacts(b);
  }

  lemma GcPage(s: Flash, n: int, b: Bank, c: Cursors, start: int)
    requires GcHalf(s, n, b, c, start)
    ensures (Blk(n, c.gc / PAGES_PER_BLK), c.gc % PAGES_PER_BLK) !in s.nand && c.gc / PAGES_PER_BLK in b.data
  {
    PendingPage(s, n, b, Swap(c));
  }

  lemma GcTarget(s: Flash, n: int, b: Bank, c: Cursors, start: int, g: Inc)
    requires GcHalf(s, n, b, c, start) && g.victims == b.victims && g.bank == n
    requires |g.lpns| == |g.data| == |g.origin| == SLOTS
    ensures Shaped(s) && Placed(s)
    ensures var x, p := Blk(n, c.gc / PAGES_PER_BLK), c.gc % PAGES_PER_BLK;
      WriteTarget(s, g, x, p) && Carried(s, x) && Counted(s, x) && x in s.vcount
  {
    PendingParts(s, n, b, Swap(c));
  }

  // Erasing a free block.
  lemma WipedFree(s: Flash, g: Inc, x: Blk)
    requires IncInv(s, g) && !IsVictim(g, x) && LiveIn(s.table, x) == {}
    ensures var s' := s.(nand := Wiped(s.nand, x));
      IncInv(s', g) && Preserved(s, s') && Blank(s', x, 0) && Shaped(s) && Shaped(s') && Placed(s')
    ensures forall y :: Exact(s, y) ==> Exact(s.(nand := Wiped(s.nand, x)), y)
  {
    EraseOther(s, g, x);
    WipedOk(s, x, s.(nand := Wiped(s.nand, x)));
  }

  lemma CountPreserved(s: Flash, g: Inc, x: Blk)
    requires IncInv(s, g)
    ensures Preserved(s, s.(vcount := s.vcount[x := 0]))
  {
  }

  lemma WritePreserved(s: Flash, s': Flash, g: Inc, b: Blk, p: int)
    requires IncInv(s, g) && WriteTarget(s, g, b, p) && BufferWritten(s, s', g, b, p)
    ensures Preserved(s, s')
  {
    WriteMeaning(s, s', g, b, p);
  }

  lemma WriteOthersOld(s0: Flash, s: Flash, s': Flash, g: Inc)
    requires OthersStay(s.table, s'.table, g) && s.table == s0.table
    ensures OthersStay(s0.table, s'.table, g)
  {
  }

  lemma NothingFrom(g: Inc)
    requires g.lpns == []
    ensures FromCurrent(g) == {}
  {
  }

  lemma ErasedBlank(s: Flash, x: Blk)
    ensures Blank(Returned(s, x), x, 0)
  {
  }

  lemma RestGc(s: Flash, n: int, b: Bank, c: Cursors, start: int)
    requires RestOk(s, n, b, c, start)
    ensures Shaped(s) && Placed(s) && forall x :: x in b.gc ==> Blank(s, Blk(n, x), 0)
    ensures forall x :: x in b.free ==> x != VC_MAX && FreeBlk(s, Blk(n, x))
  {
    assert forall x :: x in b.free ==> x in All(b);
  }

  // The block taken from the free list is not the one given back.
  lemma HeadOfFree(s: Flash, n: int, b: Bank, c: Cursors, start: int, v: int)
    requires RestOk(s, n, b, c, start) && b.free != [] && Places(b, v) == 0
    ensures b.free[0] != v && b.free[0] !in b.victims && LiveIn(s.table, Blk(n, b.free[0])) == {}
    ensures Blk(n, b.free[0]) in s.vcount && (s.vcount[Blk(n, b.free[0])] == 0 || Blank(s, Blk(n, b.free[0]), 0))
  {
    ApartFacts(b);
    assert b.free[0] in b.free;
  }

  lemma RefillFree(s: Flash, s': Flash, n: int, b: Bank, v: int)
    requires b.free != [] && b.gc == [] && Places(b, v) == 0 && FreeBlk(s, Blk(n, v)) && Blank(s, Blk(n, v), 0)
    requires s'.table == s.table && s'.vcount == s.vcount
    requires (s'.nand == s.nand || s'.nand == Wiped(s.nand, Blk(n, b.free[0])))
    ensures FreeBlk(s', Blk(n, v)) && Blank(s', Blk(n, v), 0)
    ensures Places(b.(free := b.free[1..], gc := [b.free[0]]), v) == 0
  {
    TailTimes(b.free, v);
    NoTimes(v);
  }

  lemma DataCounts(s: Flash, n: int, b: Bank, c: Cursors, start: int)
    requires RestOk(s, n, b, c, start)
    ensures forall x :: x in b.data ==> Blk(n, x) in s.vcount && 0 <= s.vcount[Blk(n, x)] <= BLK_LPAGES
  {
    forall x | x in b.data
      ensures Blk(n, x) in s.vcount && 0 <= s.vcount[Blk(n, x)] <= BLK_LPAGES
    {
      assert BlockOk(s, Blk(n, x), c.sw, c.rw, c.jn, c.gc);
      LiveBound(s, Blk(n, x));
    }
  }

  lemma RestRange(s: Flash, n: int, b: Bank, c: Cursors, start: int)
    requires RestOk(s, n, b, c, start)
    ensures forall x :: x in All(b) ==> 0 <= x < NO_BLOCK
    ensures forall x :: x in b.victims ==> 0 <= x < NO_BLOCK
    ensures forall x :: x in b.data ==> 0 <= x < NO_BLOCK
  {
    assert forall x :: x in b.victims || x in b.data ==> x in All(b);
  }

  // The page found has been programmed.
  // A page with a bit set has been programmed.
  lemma SetPage(s: Flash, g: Inc, plane: int, page: int)
    requires IncInv(s, g) && g.reading && HasBits(s.bits, Cur(g), g.at) && 0 <= page < PAGES_PER_BLK
      && 0 <= plane < PLANES
    requires g.at == (plane * PAGES_PER_BLK + page) * 2
    ensures (Cur(g), page) in s.nand
  {
  }

  lemma OpenRest(s: Flash, k: int, n: nat, m: nat, start: nat)
    requires m + 5 <= n && BankOk(s, k, OpenLists(n, m), OpenCursors(n, m)) && s.bits == {}
    requires forall l :: 0 <= l < |s.table| ==> s.table[l] == Unmapped
    requires forall x :: 0 <= x < n ==>
      Blk(k, x) in s.vcount && (s.vcount[Blk(k, x)] == 0 || s.vcount[Blk(k, x)] == VC_MAX)
    ensures RestOk(s, k, OpenLists(n, m), OpenCursors(n, m), start)
  {
    OpenBlocks(n, m);
    assert forall x :: LiveIn(s.table, x) == {};
  }

  lemma FillSuperpage(s0: Flash, s: Flash, s': Flash, touched: set<Blk>, slots: seq<Slot>, b: Blk, p: int)
    requires MeaningKept(s0, s, touched) && b in s.vcount && Filled(s, s', slots, b, p)
    ensures (b, p) in s'.nand && s'.nand[(b, p)] == Cells(slots) && s0.bits <= s'.bits
  {
  }

  lemma OpenAllots(s: Flash, k: int, b: Bank, n: nat, m: nat)
    requires m + 5 <= n && (Blk(k, n - m - 3), 0) !in s.nand
    ensures var c := OpenCursors(n, m);
      c.sw % PAGES_PER_BLK == c.rw % PAGES_PER_BLK == 0 && Allottable(s, k, b, c, SW) && Allottable(s, k, b, c, RW)
  {
  }

  lemma NoVictims(n: nat, m: nat)
    requires m + 5 <= n
    ensures OpenLists(n, m).victims == []
  {
  }

  lemma OpenInc(s: Flash, g: Inc)
    requires Shaped(s) && Placed(s) && |s.table| <= INVALID_LPN && g.victims == [] && !g.reading
    requires g.lpns == [] && g.origin == [] && g.data == []
    ensures IncInv(s, g)
  {
  }

  lemma PageOfVpn(vtBlock: int, at: int, vtVpn: int)
    requires 0 <= at < BLK_LPAGES && at % 2 == 0 && vtVpn == vtBlock * BLK_PAGES + at / 2
    ensures var plane, page := vtVpn % BLK_PAGES / PAGES_PER_BLK, vtVpn % PAGES_PER_BLK;
      0 <= page < PAGES_PER_BLK && 0 <= plane < PLANES && at == (plane * PAGES_PER_BLK + page) * 2
  {
    var k := at / 2;
    Addresses.Radix(vtVpn, vtBlock, k, BLK_PAGES);
    Addresses.Radix(vtVpn, vtBlock * PLANES + k / PAGES_PER_BLK, k % PAGES_PER_BLK, PAGES_PER_BLK);
  }

  // ------------------------------------------------ a dead page taken for live

  // A bit set where nothing is programmed yet, as erasing a block leaves it.
  lemma LeftOver(s: Flash, n: int, b: Bank, c: Cursors, start: int, q: Place)
    requires RestOk(s, n, b, c, start) && !c.startedRW && c.rw % PAGES_PER_BLK == 0
    requires InBlock(q) && q.blk == Blk(n, c.rw / PAGES_PER_BLK)
    ensures RestOk(s.(bits := s.bits + {q}), n, b, c, start)
  {
    hide Places, Tidy, FreeBlk, Called, Marked;
    ApartFacts(b);
    var s' := s.(bits := s.bits + {q});
    LeftOverBlocks(s, q);
    assert c.rw / PAGES_PER_BLK in b.rw && Blank(s, q.blk, 0);
    forall x | x in b.data
      ensures BlockOk(s', Blk(n, x), c.sw, c.rw, c.jn, c.gc) && Exact(s', Blk(n, x))
    {
      assert BlockOk(s, Blk(n, x), c.sw, c.rw, c.jn, c.gc) && Blk(n, x) != q.blk;
    }
    forall x | x in b.rw
      ensures LogBlk(s', Blk(n, x), start)
    {
      LeftOverLog(s, q, Blk(n, x), start);
    }
  }

  lemma LeftOverBlocks(s: Flash, q: Place)
    requires Shaped(s) && Placed(s)
    ensures var s' := s.(bits := s.bits + {q});
      && Shaped(s') && Placed(s') && (forall y :: Tidy(s, y) ==> Tidy(s', y))
        && (forall y :: FreeBlk(s, y) ==> FreeBlk(s', y))
  {
  }

  lemma LeftOverLog(s: Flash, q: Place, y: Blk, start: int)
    requires Shaped(s) && Placed(s) && LogBlk(s, y, start) && InBlock(q) && Blank(s, q.blk, 0)
    requires Shaped(s.(bits := s.bits + {q})) && Placed(s.(bits := s.bits + {q}))
    ensures LogBlk(s.(bits := s.bits + {q}), y, start)
  {
    var s' := s.(bits := s.bits + {q});
    assert forall l :: l in LiveIn(s.table, y) ==> Called(s, l, start) && Called(s', l, start);
    SameMarks(s, s', start);
  }

  // A bank of six blocks as RSP_Open leaves it, with one bit left over in the
  // first page for temporary pages.
  method MarkedBlock() returns (c: IncCollector)
    ensures fresh(c) && fresh(c.dev) && fresh(c.lpns) && fresh(c.buf) && c.Valid() && c.PageAtHand(RW)
    ensures c.bank == 0 && c.rwStart == 1 && c.dev.table == [Unmapped, Unmapped]
    ensures Nand(Blk(0, 2), 0, 0) in c.dev.bits && !c.Full(RW) && c.NextPage(RW) == 2 * PAGES_PER_BLK
  {
    hide RestOk, IncInv, FromCurrent, Shaped, Placed, Blank, OpenLists, IncCollector.PageAtHand, AfterOpen;
    var d := new Device(2);
    var frames, addresses := new Data[2 * SLOTS + 1], new int[SLOTS];
    GC.NothingShaped(d.State());
    c := new IncCollector.Open(d, 0, 6, 0, 1, addresses, frames);
    OpenPlaces();
    ghost var s, q := d.State(), Nand(Blk(0, 2), 0, 0);
    LeftOver(s, 0, c.Lists(NOTHING), c.Writing(), 1, q);
    IncEntries(s, c.View());
    LeftOverBlocks(s, q);
    OpenInc(s.(bits := s.bits + {q}), c.View());
    d.bits := d.bits + {Nand(Blk(0, 2), 0, 0)};
    c.NotFull();
  }

  lemma OpenPlaces()
    ensures OpenCursors(6, 0).rw == 2 * PAGES_PER_BLK && !OpenCursors(6, 0).startedRW
  {
    OpenBlocks(6, 0);
  }

  // The page of the first slot was remapped to address 0 in the buffer and given
  // up there; the others are padding.
  const GIVEN_UP: seq<Slot> := [Slot(INVALID_LPN, 0, 7)] + seq(SLOTS - 1, _ => Slot(INVALID_LPN, INVALID_LPN, 0))

  lemma GivenUpProper(s: Flash)
    requires Shaped(s) && s.table == [Unmapped, Unmapped]
    ensures Proper(s, GIVEN_UP, 1, RW)
    ensures Nand(Blk(0, 2), 0, 0) in s.bits ==> !Clean(s, GIVEN_UP, Blk(0, 2), 0)
  {
    assert GIVEN_UP[0] == Slot(INVALID_LPN, 0, 7);
    assert forall i :: 0 < i < SLOTS ==> GIVEN_UP[i] == Slot(INVALID_LPN, INVALID_LPN, 0);
    assert Named(GIVEN_UP) == {};
  }

  lemma StillUnmapped(s: Flash, s': Flash)
    requires Written(s, s', GIVEN_UP) && s.table == [Unmapped, Unmapped]
    ensures |s'.table| == 2 && s'.table[0] == Unmapped
  {
    assert Resolve(s', 0) == Resolve(s, 0);
  }

  // They are written over the bit.
  method WritesGivenUp() returns (c: IncCollector)
    ensures fresh(c) && fresh(c.dev) && fresh(c.buf) && c.Arrays() && c.index < SLOTS && !c.Valid()
    ensures |c.dev.table| == 2 && c.dev.table[0] == Unmapped && Nand(Blk(0, 2), 0, 0) in c.dev.bits
    ensures (Blk(0, 2), 0) in c.dev.nand && c.dev.nand[(Blk(0, 2), 0)] == Cells(GIVEN_UP)
  {
    hide RestOk, IncInv, FromCurrent, Proper, Clean, Written, Shaped, Placed;
    c := MarkedBlock();
    ghost var s := c.dev.State();
    IncEntries(s, c.View());
    GivenUpProper(s);
    var vpn := c.HostWrites(RW, GIVEN_UP);
    StillUnmapped(s, c.dev.State());
    NotClean(c.dev.State(), GIVEN_UP, Blk(0, 2), 0, 0);
  }

  lemma NotClean(s: Flash, slots: seq<Slot>, b: Blk, p: int, i: int)
    requires 0 <= i < |slots| && slots[i].req == INVALID_LPN && Recorded(slots[i]) != INVALID_LPN
      && Nand(b, p, i) in s.bits
    ensures !Clean(s, slots, b, p)
  {
  }

  // The collector takes the page given up for the live page of address 0, which
  // is mapped nowhere.
  method TakesDeadForLive() returns (c: IncCollector, lpn: int, valid: bool)
    ensures fresh(c) && fresh(c.dev) && !c.Valid() && |c.dev.table| == 2 && c.dev.table[0] == Unmapped
    ensures valid && lpn == 0
  {
    hide RestOk, IncInv, FromCurrent;
    c := WritesGivenUp();
    var lpn1, valid1;
    lpn, valid, lpn1, valid1 := c.ReadHalves(Blk(0, 2), 0, 0);
  }
}
