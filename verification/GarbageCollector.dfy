/** garbage_collection and inter_GC of one bank (ATLWrapper.cpp:2113-2577,
    3020-3065). */
module GarbageCollector {
  import opened Layout
  import opened FlashState
  import opened FlashDevice
  import opened GcModel
  import opened GcSpace
  import opened Forecast
  import opened VictimChoice
  import opened BlockPartition
  import opened BankLaw

  class Collector {
    const dev: Device
    const bank: int
    const buf: array<Data>       // GCbuf_addr: a superpage and the half behind it
    const lpns: array<int>       // GCbuf_lpn[..][..][REQ_LPN]
    var index: int               // GCbuf_index
    var gcBlk: int               // GC_BLK
    var free: int                // free_vpn, free_vpn_idx
    var cur: int                 // cur_write_vpn
    var curRW: int
    var curJN: int
    var curGc: int               // cur_gc_vpn
    var dataList: seq<int>
    var freeList: seq<int>
    var rwList: seq<int>         // RW_log_list
    var startedSW: bool          // write_start[SHRD_SW]
    var startedRW: bool          // write_start[SHRD_RW]

    ghost predicate Buffers()
      reads this
    {
      buf.Length == SLOTS + 1 && lpns.Length == SLOTS && 0 <= index < SLOTS
    }

    function B(no: int): Blk {
      Blk(bank, no)
    }

    // The gathered pages and their data.
    ghost predicate Holding(u: Run, n: int, k: int)
      reads this, dev, buf, lpns
    {
      && Buffers() && buf != lpns && Going(u, dev.State(), n, k, lpns[..index], buf[..index])
      && Dealt(u, dev.State(), k * SLOTS) && Spared(u)
    }

    // The collector of a bank with given lists and cursors.
    constructor On(d: Device, number: int, b: Bank, c: Cursors, frames: array<Data>, addresses: array<int>)
      requires frames.Length == SLOTS + 1 && addresses.Length == SLOTS && frames != addresses && |b.gc| <= 1
      requires VC_MAX !in b.gc
      ensures Buffers() && index == 0 && dev == d && bank == number && buf == frames && lpns == addresses
      ensures Lists(NOTHING) == Trim(b) && Lists(b) == b && Writing() == c
    {
      dev, bank, buf, lpns, index, free := d, number, frames, addresses, 0, VC_MAX;
      freeList, dataList, rwList, gcBlk := b.free, b.data, b.rw, if b.gc == [] then VC_MAX else b.gc[0];
      cur, curRW, curJN, curGc, startedSW, startedRW := c.sw, c.rw, c.jn, c.gc, c.startedSW, c.startedRW;
    }

    // RSP_Open of one bank with `n` blocks, `m` of them for map pages: nothing is
    // mapped yet; the blocks left in the free list are not erased.
    constructor Open(d: Device, number: int, n: nat, m: nat, frames: array<Data>, addresses: array<int>)
      requires frames.Length == SLOTS + 1 && addresses.Length == SLOTS && frames != addresses && m + 5 <= n <= NO_BLOCK
      requires Shaped(d.State()) && d.bits == {} && |d.table| <= INVALID_LPN
      requires forall l :: 0 <= l < |d.table| ==> d.table[l] == Unmapped
      modifies d`nand, d`vcount
      ensures Valid() && Shaped(d.State()) && dev == d && bank == number && buf == frames && lpns == addresses
      ensures Lists(NOTHING) == OpenLists(n, m) && Writing() == OpenCursors(n, m)
      ensures Outside(old(d.State()), d.State(), set x | 0 <= x < n :: Blk(number, x))
      ensures forall x :: 0 <= x < n ==>
        Blk(number, x) in d.vcount && (d.vcount[Blk(number, x)] == 0 || d.vcount[Blk(number, x)] == VC_MAX)
      ensures (Blk(number, n - m - 3), 0) !in d.nand
    {
      dev, bank, buf, lpns, index := d, number, frames, addresses, 0;
      gcBlk, free, cur, curRW, curJN, curGc := VC_MAX, VC_MAX, VC_MAX, VC_MAX, VC_MAX, VC_MAX;
      dataList, freeList, rwList, startedSW, startedRW := [], [], [], false, false;
      new;
      hide BankOk, Outside, Shaped, OpenLists, OpenCursors, Down, AfterOpen;
      OpenLaw(n, m);
    }

    // Every block enters the free list; the blocks to begin with are taken from it.
    method OpenLaw(n: nat, m: nat)
      requires Shaped(dev.State()) && dev.bits == {} && |dev.table| <= INVALID_LPN && m + 5 <= n <= NO_BLOCK
      requires forall l :: 0 <= l < |dev.table| ==> dev.table[l] == Unmapped
      requires freeList == dataList == rwList == [] && curGc == VC_MAX && !startedSW && !startedRW
      modifies this`gcBlk, this`cur, this`curRW, this`curJN, this`dataList, this`freeList, this`rwList, dev`nand,
               dev`vcount
      ensures BankOk(dev.State(), bank, Lists(NOTHING), Writing()) && Shaped(dev.State())
      ensures Lists(NOTHING) == OpenLists(n, m) && Writing() == OpenCursors(n, m)
      ensures Outside(old(dev.State()), dev.State(), set x | 0 <= x < n :: Blk(bank, x))
      ensures (Blk(bank, n - m - 3), 0) !in dev.nand
      ensures forall x :: 0 <= x < n ==>
        Blk(bank, x) in dev.vcount && (dev.vcount[Blk(bank, x)] == 0 || dev.vcount[Blk(bank, x)] == VC_MAX)
    {
      hide BankOk, Outside, Taken, Shaped, OpenLists, OpenCursors, Down, AfterOpen;
      ghost var s := dev.State();
      FillFree(n, m);
      TakeMaps(n, m, s.nand, s.vcount);
      TakeBlocks(n, m, s.nand, s.vcount);
      OpenedBank(s, n, m);
    }

    lemma OpenedBank(s0: Flash, n: nat, m: nat)
      requires m + 5 <= n <= NO_BLOCK && Shaped(s0) && s0.bits == {} && |s0.table| <= INVALID_LPN
      requires forall l :: 0 <= l < |s0.table| ==> s0.table[l] == Unmapped
      requires dev.table == s0.table && dev.bits == {}
      requires Taken(bank, freeList, dev.nand, dev.vcount, s0.nand, s0.vcount, n, m, m + 5)
      requires gcBlk == n - m - 2 && cur == (n - m - 3) * PAGES_PER_BLK && dataList == [n - m - 3]
      requires curRW == (n - m - 4) * PAGES_PER_BLK && rwList == [n - m - 4] && curJN == (n - m - 5) * PAGES_PER_BLK
      requires curGc == VC_MAX && !startedSW && !startedRW
      ensures BankOk(dev.State(), bank, Lists(NOTHING), Writing()) && Shaped(dev.State())
      ensures Lists(NOTHING) == OpenLists(n, m) && Writing() == OpenCursors(n, m)
      ensures Outside(s0, dev.State(), set x | 0 <= x < n :: Blk(bank, x)) && (Blk(bank, n - m - 3), 0) !in dev.nand
      ensures forall x :: 0 <= x < n ==>
        Blk(bank, x) in dev.vcount && (dev.vcount[Blk(bank, x)] == 0 || dev.vcount[Blk(bank, x)] == VC_MAX)
    {
      hide BankOk, Outside, AfterOpen;
      OpenBlocks(n, m);
      OpenOk(dev.State(), bank, n, m);
      BankShaped();
      OpenedOutside(s0, n, m);
    }

    lemma BankShaped()
      requires BankOk(dev.State(), bank, Lists(NOTHING), Writing())
      ensures Shaped(dev.State())
    {
    }

    lemma OpenedOutside(s0: Flash, n: nat, m: nat)
      requires m + 5 <= n && forall l :: 0 <= l < |s0.table| ==> s0.table[l] == Unmapped
      requires dev.table == s0.table && dev.bits == s0.bits
      requires Taken(bank, freeList, dev.nand, dev.vcount, s0.nand, s0.vcount, n, m, m + 5)
      ensures Outside(s0, dev.State(), set x | 0 <= x < n :: Blk(bank, x))
    {
    }

    // Every block enters the free list at its front.
    method FillFree(n: nat, ghost m: nat)
      requires freeList == []
      modifies this`freeList, dev`vcount
      ensures Taken(bank, freeList, dev.nand, dev.vcount, dev.nand, old(dev.vcount), n, m, 0)
    {
      for block := 0 to n
        invariant freeList == Down(block, block)
        invariant forall x :: x in dev.vcount <==> x in old(dev.vcount) || (x.bank == bank && 0 <= x.no < block)
        invariant forall x :: x in dev.vcount ==>
          dev.vcount[x] == if x.bank == bank && 0 <= x.no < block then 0 else old(dev.vcount)[x]
      {
        freeList := [block] + freeList;
        dev.SetVcount(B(block), 0);
        assert freeList == Down(block + 1, block + 1);
      }
    }

    method TakeMaps(n: nat, m: nat, ghost nand: map<(Blk, int), seq<Cell>>, ghost vcount: map<Blk, int>)
      requires m <= n && Taken(bank, freeList, dev.nand, dev.vcount, nand, vcount, n, m, 0)
      modifies this`freeList, dev`nand, dev`vcount
      ensures Taken(bank, freeList, dev.nand, dev.vcount, nand, vcount, n, m, m)
    {
      for i := 0 to m
        invariant Taken(bank, freeList, dev.nand, dev.vcount, nand, vcount, n, m, i)
      {
        var block := TakeErased(VC_MAX, n, m, nand, vcount, i);
      }
    }

    // The meta block, the empty block and the blocks to write.
    method TakeBlocks(n: nat, m: nat, ghost nand: map<(Blk, int), seq<Cell>>, ghost vcount: map<Blk, int>)
      requires m + 5 <= n && Taken(bank, freeList, dev.nand, dev.vcount, nand, vcount, n, m, m)
      requires dataList == rwList == []
      modifies this`freeList, this`gcBlk, this`cur, this`curRW, this`curJN, this`dataList, this`rwList, dev`nand,
               dev`vcount
      ensures Taken(bank, freeList, dev.nand, dev.vcount, nand, vcount, n, m, m + 5)
      ensures gcBlk == n - m - 2 && cur == (n - m - 3) * PAGES_PER_BLK && dataList == [n - m - 3]
      ensures curRW == (n - m - 4) * PAGES_PER_BLK && rwList == [n - m - 4] && curJN == (n - m - 5) * PAGES_PER_BLK
    {
      hide Taken;
      var meta := TakeErased(VC_MAX, n, m, nand, vcount, m);
      gcBlk := TakeErased(VC_MAX, n, m, nand, vcount, m + 1);
      var block := TakeErased(0, n, m, nand, vcount, m + 2);
      cur := PAGES_PER_BLK * block;
      dataList := dataList + [block];
      block := TakeErased(0, n, m, nand, vcount, m + 3);
      curRW := PAGES_PER_BLK * block;
      rwList := rwList + [block];
      block := TakeErased(0, n, m, nand, vcount, m + 4);
      curJN := PAGES_PER_BLK * block;
    }

    // The head of the free list is erased and counted `v`.
    method TakeErased(v: int, ghost n: nat, ghost m: nat, ghost nand: map<(Blk, int), seq<Cell>>,
                      ghost vcount: map<Blk, int>,
                      ghost i: nat) returns (block: int)
      requires Taken(bank, freeList, dev.nand, dev.vcount, nand, vcount, n, m, i) && i < n
      requires v == (if i < m + 2 then VC_MAX else 0)
      modifies this`freeList, dev`nand, dev`vcount
      ensures Taken(bank, freeList, dev.nand, dev.vcount, nand, vcount, n, m, i + 1) && block == n - 1 - i
    {
      block := freeList[0];
      freeList := freeList[1..];
      dev.Erase(B(block));
      dev.SetVcount(B(block), v);
    }

    // Reading one plane page of the victim into the buffer, and the test which
    // of its halves are live; a live upper half alone moves down one slot.
    method ReadVictim(vt: int, page: int, plane: int, ghost u: Run, ghost k: int)
        returns (lpn0: int, valid0: bool, lpn1: int, valid1: bool)
      requires 0 <= page < PAGES_PER_BLK && 0 <= plane < PLANES && u.vt == B(vt) && (B(vt), page) in dev.nand
      requires Holding(u, page * SLOTS + plane * 2, k)
      modifies buf
      ensures Holding(u, page * SLOTS + plane * 2, k)
      ensures Tested(B(vt), page, plane * 2, lpn0, valid0, index)
      ensures Tested(B(vt), page, plane * 2 + 1, lpn1, valid1, if valid0 then index + 1 else index)
    {
      hide Going, Placed, Dealt;
      ghost var s := dev.State();
      GoingFacts(u, s, page * SLOTS + plane * 2, k, lpns[..index], buf[..index]);
      var place0, place1 := Nand(B(vt), page, plane * 2), Nand(B(vt), page, plane * 2 + 1);
      ReadLive(u, s, page * SLOTS + plane * 2, k, lpns[..index], buf[..index], place0);
      ReadLive(u, s, page * SLOTS + plane * 2, k, lpns[..index], buf[..index], place1);
      ghost var held := buf[..index];
      var low, high := dev.ReadPage(B(vt), page, plane);
      buf[index], buf[index + 1] := low.data, high.data;
      lpn0, lpn1 := Effective(low), Effective(high);
      InTable(s, place0);
      InTable(s, place1);
      valid0 := IsMappedTo(lpn0, place0);
      valid1 := IsMappedTo(lpn1, place1);
      if !valid0 && valid1 {
        buf[index] := buf[index + 1];
      }
      assert buf[..index] == held;
    }

    // The half at `slot` is live exactly if `valid`, and then the buffer holds it.
    ghost predicate Tested(b: Blk, page: int, slot: int, lpn: int, valid: bool, at: int)
      reads dev, buf
    {
      var p := Nand(b, page, slot);
      && 0 <= at && Shaped(dev.State()) && InBlock(p) && (b, page) in dev.nand
      && (valid <==> Live(dev.State(), p))
      && lpn == Effective(CellAt(dev.State(), p))
      && (valid ==> at < buf.Length && buf[at] == CellAt(dev.State(), p).data)
    }

    method IsMappedTo(lpn: int, place: Place) returns (yes: bool)
      requires lpn == INVALID_LPN || 0 <= lpn < |dev.table|
      ensures yes <==> lpn != INVALID_LPN && dev.table[lpn] == place
    {
      if lpn == INVALID_LPN {
        yes := false;
      } else {
        var p := dev.GetVpn(lpn);
        yes := p == place;
      }
    }

    // ---------------------------------------------- one superpage

    // With no empty block the copies do not need one.
    ghost predicate Spared(u: Run)
      reads this`gcBlk, dev`vcount
    {
      gcBlk == VC_MAX ==> Suffices(u) && u.gc !in dev.vcount
    }

    // Where the copies of this victim have got to: `list` was the data list
    // before, and inter_GC puts the block it opens at its tail.
    ghost predicate Track(u: Run, k: int, inter: bool, list: seq<int>)
      reads this
    {
      && (gcBlk != VC_MAX ==> u.gc == B(gcBlk)) && u.wb.bank == bank && 0 <= k
      && (if inter then free == (if u.r + k < PAGES_PER_BLK then u.wb.no * PAGES_PER_BLK + u.r + k
                                 else gcBlk * PAGES_PER_BLK + u.r + k - PAGES_PER_BLK)
          else u.r == PAGES_PER_BLK - 1 && free == gcBlk * PAGES_PER_BLK + k)
      && dataList == (if inter && u.r + k >= PAGES_PER_BLK then list + [gcBlk] else list)
    }

    // Choosing the next superpage; inter_GC opens the empty block when the
    // current one is full.
    method NextSuper(inter: bool, ghost u: Run, ghost n: int, ghost k: int, ghost pend: seq<int>, ghost data: seq<Data>,
                     ghost list: seq<int>) returns (target: int)
      requires Going(u, dev.State(), n, k, pend, data) && Track(u, k, inter, list) && k < PAGES_PER_BLK - 1
      requires Dealt(u, dev.State(), k * SLOTS) && (!inter ==> Opened(u, dev.State(), k))
      requires Spared(u) && pend != [] && (!inter ==> gcBlk != VC_MAX)
      modifies this`free, this`dataList, dev`vcount
      ensures Dealt(u, dev.State(), k * SLOTS) && Spared(u)
      ensures Going(u, dev.State(), n, k, pend, data) && Track(u, k + 1, inter, list) && Opened(u, dev.State(), k)
      ensures DestBlk(u, k) == B(target / PAGES_PER_BLK) && DestPage(u, k) == target % PAGES_PER_BLK
    {
      hide Going;
      RunFacts(u, dev.State(), n, k, pend, data);
      if gcBlk == VC_MAX { NotFull(u, dev.State(), n, k, pend, data); }
      if !inter {
        target := free;
        free := free + 1;
      } else if free % PAGES_PER_BLK == PAGES_PER_BLK - 1 {
        GcModel.OpenGc(u, dev.State(), n, k, pend, data);
        DealtOpens(u, dev.State(), k);
        dev.SetVcount(B(gcBlk), 0);
        free := gcBlk * PAGES_PER_BLK;
        dataList := dataList + [gcBlk];
        target := free;
      } else {
        free := free + 1;
        target := free;
      }
    }

    // Programming the gathered pages, all eight or the remaining few.
    method FlushBuffer(inter: bool, ghost u: Run, ghost n: int, ghost k: int, ghost list: seq<int>)
      requires Filled() && index > 0 && Going(u, dev.State(), n, k, lpns[..index], buf[..index])
      requires Track(u, k, inter, list) && Dealt(u, dev.State(), k * SLOTS) && (!inter ==> Opened(u, dev.State(), k))
      requires Spared(u) && (!inter ==> gcBlk != VC_MAX)
      modifies this`free, this`dataList, dev
      ensures Dealt(u, dev.State(), k * SLOTS + index) && Spared(u)
      ensures Track(u, k + 1, inter, list) && After(u, dev.State(), k + 1)
      ensures Gathered(dev.State(), u.vt, n, [], [])
      ensures |LiveIn(dev.State().table, u.vt)| == |LiveIn(old(dev.State()).table, u.vt)| - index
      ensures OnlyMoved(old(dev.table), dev.table, u.vt, n)
    {
      hide Going, After, Gathered, Kept, Shaped, Placed, Track, Packed, OnlyMoved, LiveIn, Legible, Opened, Repointed,
           Dealt;
      ghost var pend, data := lpns[..index], buf[..index];
      Gatherings(u, dev.State(), n, k, pend, data);
      DestFree(u, dev.State(), n, k, pend, data);
      if gcBlk == VC_MAX { NotFull(u, dev.State(), n, k, pend, data); }
      var target := NextSuper(inter, u, n, k, pend, data, list);
      var blk, page := B(target / PAGES_PER_BLK), target % PAGES_PER_BLK;
      ghost var s := dev.State();
      GoingFacts(u, s, n, k, pend, data);
      RunFacts(u, s, n, k, pend, data);
      DestFree(u, s, n, k, pend, data);
      var cells := MapPages(blk, page);
      MovedOut(u, s, n, k, pend, data, dev.table);
      Packs(u, s, n, k, pend, data, cells);
      dev.Program(blk, page, cells);
      GcBlockCounts(u, s, n, k, pend, data);
      ghost var s' := dev.State().(vcount := s.vcount[blk := s.vcount[blk] + index]);
      Flush(u, s, s', n, k, pend, data, cells);
      AfterCount(u, s', k);
      DealtOne(u, s, s', k, index);
      var v := dev.GetVcount(blk);
      dev.SetVcount(blk, v + index);
      assert dev.State() == s';
    }

    // One live half of a victim page enters the buffer, at the slot where its
    // data already is; a full buffer is written out, and then the half behind
    // it, if it is still to be entered, moves to the front.
    method PushHalf(lpn: int, place: Place, carry: bool, inter: bool, ghost u: Run, ghost n: int, ghost k: int,
                    ghost list: seq<int>) returns (ghost k': int)
      requires Holding(u, n, k) && Track(u, k, inter, list) && (!inter ==> Opened(u, dev.State(), k) && gcBlk != VC_MAX)
      requires InBlock(place) && place.blk == u.vt && Order(place) == n
      requires 0 <= lpn < |dev.table| && dev.table[lpn] == place
      requires Resolve(dev.State(), lpn) == Stored(buf[index])
      modifies this`free, this`dataList, this`index, dev, buf, lpns
      ensures Holding(u, n + 1, k') && Track(u, k', inter, list) && (!inter ==> Opened(u, dev.State(), k'))
      ensures k' * SLOTS + index == k * SLOTS + old(index) + 1 <= |LiveIn(u.s0.table, u.vt)|
      ensures carry ==> buf[index] == old(buf[index + 1])
      ensures OnlyMoved(old(dev.table), dev.table, u.vt, n + 1)
    {
      hide Going, After, Gathered, Dealt;
      ghost var pend, data := lpns[..index], buf[..index];
      Push(u, dev.State(), n, k, pend, data, place, lpn, buf[index]);
      lpns[index] := lpn;
      index := index + 1;
      assert lpns[..index] == pend + [lpn] && buf[..index] == data + [buf[index - 1]];
      k' := k;
      if index == SLOTS {
        Sizes(u, dev.State(), n + 1, k, lpns[..index], buf[..index]);
        FlushBuffer(inter, u, n + 1, k, list);
        k' := k + 1;
        Resume(u, dev.State(), n + 1, k');
        if carry {
          buf[0] := buf[index];
        }
        index := 0;
        assert lpns[..index] == [] && buf[..index] == [];
      }
    }

    // Both halves of one plane page of the victim.
    method CopyPair(vt: int, page: int, plane: int, vcount: int, cpy: int, inter: bool,
                    ghost u: Run, ghost k: int, ghost list: seq<int>)
        returns (cpy': int, ghost n': int, ghost k': int)
      requires 0 <= page < PAGES_PER_BLK && 0 <= plane < PLANES && u.vt == B(vt) && (B(vt), page) in dev.nand
      requires Holding(u, page * SLOTS + plane * 2, k) && Track(u, k, inter, list)
      requires (!inter ==> Opened(u, dev.State(), k) && gcBlk != VC_MAX)
      requires cpy == k * SLOTS + index && vcount == |LiveIn(u.s0.table, u.vt)|
      modifies this`free, this`dataList, this`index, dev, buf, lpns
      ensures Holding(u, n', k') && Track(u, k', inter, list) && (!inter ==> Opened(u, dev.State(), k'))
      ensures cpy' == k' * SLOTS + index
      ensures cpy' != vcount ==> n' == page * SLOTS + plane * 2 + 2
    {
      hide Going, After, Gathered, Dealt;
      var place0, place1 := Nand(B(vt), page, plane * 2), Nand(B(vt), page, plane * 2 + 1);
      n', k', cpy' := page * SLOTS + plane * 2, k, cpy;
      var lpn0, valid0, lpn1, valid1 := ReadVictim(vt, page, plane, u, k);
      HalfLive(u, dev.State(), n', k', lpns[..index], buf[..index], place0);
      HalfLive(u, dev.State(), n', k', lpns[..index], buf[..index], place1);
      ghost var s := dev.State();
      GoingFacts(u, s, n', k', lpns[..index], buf[..index]);
      if valid0 {
        k' := PushHalf(lpn0, place0, valid1, inter, u, n', k', list);
        cpy' := cpy' + 1;
      } else {
        Skip(u, dev.State(), n', k', lpns[..index], buf[..index], place0);
      }
      n' := n' + 1;
      if cpy' == vcount {
        return;
      }
      GoingFacts(u, dev.State(), n', k', lpns[..index], buf[..index]);
      StillThere(u, s, dev.State(), place1, n');
      if valid1 {
        k' := PushHalf(lpn1, place1, false, inter, u, n', k', list);
        cpy' := cpy' + 1;
      } else {
        Skip(u, dev.State(), n', k', lpns[..index], buf[..index], place1);
      }
      n' := n' + 1;
    }

    // The scan of the victim: every plane page one of whose bits is set is read,
    // until as many pages have been copied as the victim counts.
    method CopyVictim(vt: int, vcount: int, inter: bool, ghost u: Run, ghost list: seq<int>)
        returns (cpy: int, ghost n: int, ghost k: int)
      requires u.vt == B(vt) && Holding(u, 0, 0) && Track(u, 0, inter, list)
      requires !inter ==> Opened(u, dev.State(), 0) && gcBlk != VC_MAX
      requires index == 0 && vcount == |LiveIn(u.s0.table, u.vt)|
      modifies this`free, this`dataList, this`index, dev, buf, lpns
      ensures Holding(u, n, k) && Track(u, k, inter, list) && (!inter ==> Opened(u, dev.State(), k))
      ensures cpy == vcount == k * SLOTS + index
      ensures LiveIn(dev.State().table, u.vt) == Members(lpns[..index])
    {
      hide Going, After, Gathered, Dealt;
      n, k, cpy := 0, 0, 0;
      var page, done := 0, false;
      while page < PAGES_PER_BLK && !done
        invariant 0 <= page <= PAGES_PER_BLK
        invariant Holding(u, n, k) && Track(u, k, inter, list) && (!inter ==> Opened(u, dev.State(), k))
        invariant cpy == k * SLOTS + index
        invariant if done then cpy == vcount else n == page * SLOTS
      {
        var plane := 0;
        while plane < PLANES && !done
          invariant 0 <= plane <= PLANES
          invariant Holding(u, n, k) && Track(u, k, inter, list) && (!inter ==> Opened(u, dev.State(), k))
          invariant cpy == k * SLOTS + index
          invariant if done then cpy == vcount else n == page * SLOTS + plane * 2
        {
          var place0, place1 := Nand(B(vt), page, plane * 2), Nand(B(vt), page, plane * 2 + 1);
          if place0 in dev.bits || place1 in dev.bits {
            BitProgrammed(u, dev.State(), n, k, lpns[..index], buf[..index],
              if place0 in dev.bits then place0 else place1);
            cpy, n, k := CopyPair(vt, page, plane, vcount, cpy, inter, u, k, list);
            done := cpy == vcount;
          } else {
            SkipPair(u, dev.State(), n, k, lpns[..index], buf[..index], place0, place1);
            n := n + 2;
          }
          plane := plane + 1;
        }
        page := page + 1;
      }
      Sizes(u, dev.State(), n, k, lpns[..index], buf[..index]);
      AllGathered(u, dev.State(), n, k, lpns[..index], buf[..index]);
    }

    // set_vpn and validate_vpn of every gathered page, in buffer order, and the
    // superpage with its spare areas.
    method MapPages(blk: Blk, page: int) returns (cells: seq<Cell>)
      requires Filled() && NoDup(lpns[..index]) && forall i :: 0 <= i < index ==> 0 <= lpns[i] < |dev.table|
      modifies dev`table, dev`bits
      ensures Repointed(old(dev.table), dev.table, lpns[..index], blk, page)
      ensures forall x :: x in dev.bits <==>
        x in old(dev.bits) || (x.Nand? && x.blk == blk && x.page == page && 0 <= x.slot < index)
      ensures |cells| == SLOTS
      ensures forall i :: 0 <= i < SLOTS ==>
        cells[i] == Cell(buf[i], if i < index then lpns[i] else INVALID_LPN, INVALID_LPN)
    {
      cells := [];
      for i := 0 to SLOTS
        invariant |cells| == i && |dev.table| == |old(dev.table)|
        invariant forall j :: 0 <= j < i ==>
          cells[j] == Cell(buf[j], if j < index then lpns[j] else INVALID_LPN, INVALID_LPN)
        invariant forall j :: 0 <= j < i && j < index ==> dev.table[lpns[j]] == Nand(blk, page, j)
        invariant forall l :: 0 <= l < |dev.table| && (forall j :: 0 <= j < i && j < index ==> lpns[j] != l) ==>
          dev.table[l] == old(dev.table)[l]
        invariant forall x :: x in dev.bits <==>
          x in old(dev.bits) || (x.Nand? && x.blk == blk && x.page == page && 0 <= x.slot < i && x.slot < index)
      {
        if i < index {
          assert forall j :: 0 <= j < i ==> lpns[..index][j] != lpns[..index][i];
          dev.SetVpn(lpns[i], Nand(blk, page, i));
          dev.ValidateVpn(Nand(blk, page, i));
          cells := cells + [Cell(buf[i], lpns[i], INVALID_LPN)];
        } else {
          cells := cells + [Cell(buf[i], INVALID_LPN, INVALID_LPN)];
        }
      }
    }

    ghost predicate Filled()
      reads this
    {
      buf.Length == SLOTS + 1 && lpns.Length == SLOTS && 0 <= index <= SLOTS && buf != lpns
    }

    // ---------------------------------------------- the blocks

    predicate Busy(block: int)
      reads this
    {
      Skipped(block, cur, curRW, curJN, curGc)
    }

    // The empty block, if there is one.
    function Empty(): seq<int>
      reads this
    {
      if gcBlk == VC_MAX then [] else [gcBlk]
    }

    // The bank's lists; `rest` holds those that are not changed here.
    ghost function Lists(rest: Bank): Bank
      reads this
    {
      rest.(free := freeList, data := dataList, rw := rwList, gc := Empty())
    }

    ghost function Writing(): Cursors
      reads this
    {
      Cursors(cur, curRW, curJN, curGc, startedSW, startedRW)
    }

    // The state between two operations.
    ghost predicate Valid()
      reads this, dev
    {
      && Buffers() && index == 0 && buf != lpns && BankOk(dev.State(), bank, Lists(NOTHING), Writing())
    }

    // Some block of the data list has a superpage's worth of dead pages.
    predicate HasVictim()
      reads this, dev
    {
      exists b :: b in dataList && !Busy(b) && B(b) in dev.vcount && dev.vcount[B(b)] <= MOST_LIVE
    }

    // The victim's pages are copied and the last few written out.
    method Evacuate(vt: int, vcount: int, inter: bool, ghost u: Run, ghost list: seq<int>) returns (ghost k: int)
      requires u.vt == B(vt) && Holding(u, 0, 0) && Track(u, 0, inter, list)
      requires !inter ==> Opened(u, dev.State(), 0) && gcBlk != VC_MAX
      requires index == 0 && vcount == |LiveIn(u.s0.table, u.vt)|
      modifies this`free, this`dataList, this`index, dev, buf, lpns
      ensures Buffers() && index == 0 && After(u, dev.State(), k) && Track(u, k, inter, list)
      ensures LiveIn(dev.State().table, u.vt) == {} && (!inter ==> Opened(u, dev.State(), k))
      ensures Dealt(u, dev.State(), vcount) && Spared(u)
      ensures k == (vcount + SLOTS - 1) / SLOTS <= PAGES_PER_BLK - 1
    {
      hide Going, After, Gathered, Dealt;
      var cpy;
      ghost var n;
      cpy, n, k := CopyVictim(vt, vcount, inter, u, list);
      assert vcount == cpy;
      Sizes(u, dev.State(), n, k, lpns[..index], buf[..index]);
      if index != 0 {
        FlushBuffer(inter, u, n, k, list);
        k := k + 1;
        index := 0;
      } else {
        GoingAfter(u, dev.State(), n, k, lpns[..index], buf[..index]);
      }
    }

    // The block get_vt_vblock returns.
    ghost predicate NextVictim(vt: int)
      reads this, dev
    {
      FirstLeast(dev.vcount, bank, dataList, cur, curRW, curJN, curGc, vt)
    }

    // What inter_GC would leave, told from the valid counts.
    ghost function Outcome(): Ending
      reads this, dev
    {
      EndOf(dev.State(), bank, Lists(NOTHING), Writing())
    }

    // Nothing more is to come.
    ghost function Now(block: int): Ending
      reads this
    {
      Ending(block, cur, gcBlk, dataList)
    }

    // The copies of inter_GC have a place: the empty block, or if there is none
    // what is left behind the write pointer.
    ghost predicate HasPlace()
      reads this, dev
    {
      Served(dev.State(), bank, Lists(NOTHING), Writing())
    }

    lemma EmptyServes()
      ensures gcBlk != VC_MAX ==> HasPlace()
    {
    }

    lemma NoOutcome()
      requires Valid() && !HasVictim()
      ensures Outcome() == Now(VC_MAX)
    {
      NothingFreed(dev.State(), bank, Lists(NOTHING), Writing());
    }

    // The victim: a block of the data list with the fewest live pages.
    method ChooseVictim() returns (vt: int, vcount: int)
      requires Valid() && HasVictim()
      ensures vt in dataList && !Busy(vt) && B(vt) in dev.vcount && vcount == dev.vcount[B(vt)] <= MOST_LIVE
      ensures vcount == |LiveIn(dev.table, B(vt))|
      ensures forall b :: b in dataList && !Busy(b) && B(b) in dev.vcount ==> vcount <= dev.vcount[B(b)]
      ensures NextVictim(vt)
    {
      VictimCounts();
      vt := GetVictim(dev, bank, dataList, cur, curRW, curJN, curGc);
      vcount := dev.GetVcount(B(vt));
      assert BlockOk(dev.State(), B(vt), cur, curRW, curJN, curGc);
    }

    lemma VictimCounts()
      requires Valid()
      ensures forall b :: b in dataList ==> B(b) in dev.vcount && 0 <= dev.vcount[B(b)] <= BLK_LPAGES
    {
      forall b | b in dataList
        ensures B(b) in dev.vcount && 0 <= dev.vcount[B(b)] <= BLK_LPAGES
      {
        assert BlockOk(dev.State(), B(b), cur, curRW, curJN, curGc);
        LiveBound(dev.State(), B(b));
      }
    }

    ghost function TrackedList(vt: int): set<Blk>
      reads this
    {
      set b | b in dataList && b != vt :: B(b)
    }

    // ---------------------------------------------- garbage_collection

    // garbage_collection leaves the write pointer on the next page to write.
    method GarbageCollection() returns (ghost vt: int)
      requires Valid() && cur % PAGES_PER_BLK == PAGES_PER_BLK - 1 && gcBlk != VC_MAX && HasVictim()
      modifies this`index, this`free, this`cur, this`gcBlk, this`dataList, dev, buf, lpns
      ensures Buffers() && index == 0 && MeaningKept(old(dev.State()), dev.State(), old(Region(bank, Lists(NOTHING))))
      ensures Pending(dev.State(), bank, Lists(NOTHING), Writing())
      ensures old(NextVictim(vt)) && vt in old(dataList)
      ensures forall rest :: Lists(rest) == Apply(old(Lists(rest)), Collect(vt))
      ensures B(vt) in old(dev.vcount) && B(old(gcBlk)) in dev.vcount
      ensures dev.vcount[B(old(gcBlk))] == old(dev.vcount)[B(vt)]
      ensures cur == old(gcBlk) * PAGES_PER_BLK + (old(dev.vcount)[B(vt)] + SLOTS - 1) / SLOTS
    {
      hide Dealt, Going, After, Gathered, BankOk, Pending, SameMeaning, Outside, Track, ListsOk, DataOk, LogOk, Tidy,
           LiveIn, Region;
      ghost var s, b, c, list := dev.State(), Lists(NOTHING), Writing(), dataList;
      InShape();
      var victim, vcount := ChooseVictim();
      vt := victim;
      ghost var u := Prepare(victim);
      ghost var k := Evacuate(victim, vcount, false, u, dataList);
      EvacuatedList(u, k, list);
      ClearedPending(u, s, dev.State(), bank, b, c, vt, k);
      Finish(victim);
    }

    // The copies of garbage_collection go to the empty block at once.
    method Prepare(vt: int) returns (ghost u: Run)
      requires Valid() && gcBlk != VC_MAX && vt in dataList && !Busy(vt) && cur % PAGES_PER_BLK == PAGES_PER_BLK - 1
      requires B(vt) in dev.vcount && dev.vcount[B(vt)] <= MOST_LIVE
      modifies this`free, dev`vcount
      ensures Cleared(u, old(dev.State()), bank, Lists(NOTHING), Writing(), vt)
      ensures Holding(u, 0, 0) && Track(u, 0, false, dataList) && GcModel.Opened(u, dev.State(), 0)
      ensures |LiveIn(u.s0.table, u.vt)| == old(dev.vcount)[B(vt)]
    {
      ghost var s, b := dev.State(), Lists(NOTHING);
      ApartFacts(b);
      dev.SetVcount(B(gcBlk), 0);
      free := gcBlk * PAGES_PER_BLK;
      u := Run(dev.State(), B(vt), B(gcBlk), PAGES_PER_BLK - 1, B(gcBlk), TrackedList(vt));
      CountTidy(s, B(gcBlk));
      assert BlockOk(s, B(vt), cur, curRW, curJN, curGc);
      forall x | x in dataList
        ensures Tidy(dev.State(), B(x)) && B(x) != B(gcBlk)
      {
        assert BlockOk(s, B(x), cur, curRW, curJN, curGc);
      }
      Starts(u);
      assert lpns[..index] == [] && buf[..index] == [];
    }

    // The closing steps of garbage_collection.
    method Finish(vt: int)
      requires vt in dataList
      modifies this`cur, this`gcBlk, this`dataList, dev
      ensures dev.State() == Returned(old(dev.State()), B(vt))
      ensures cur == old(free) && gcBlk == vt && dataList == Without(old(dataList), vt) + [old(gcBlk)]
    {
      dev.SetVcount(B(vt), VC_MAX);
      cur := free;
      dataList := Without(dataList, vt);
      var gcBlock := gcBlk;
      gcBlk := vt;
      dataList := dataList + [gcBlock];
      dev.Erase(B(vt));
    }

    lemma EvacuatedList(u: Run, k: int, list: seq<int>)
      requires gcBlk != VC_MAX && Track(u, k, false, list)
      ensures dataList == list && free == gcBlk * PAGES_PER_BLK + k && u.gc == B(gcBlk)
    {
    }

    lemma TrackStarts(u: Run)
      requires (gcBlk != VC_MAX ==> u.gc == B(gcBlk)) && u.wb == B(cur / PAGES_PER_BLK)
      requires u.r == cur % PAGES_PER_BLK && free == cur
      ensures Track(u, 0, true, dataList)
    {
    }

    lemma EvacuatedRound(u: Run, k: int, list: seq<int>)
      requires Track(u, k, true, Without(list, u.vt.no)) && u.vt.bank == bank
      requires gcBlk == VC_MAX ==> u.r + k < PAGES_PER_BLK
      ensures dataList == ListAfter(u, list, k) && free == Cursor(u, k)
    {
    }

    // ---------------------------------------------- inter_GC

    // The write pointer's block is the empty block, and the next victim has
    // nothing to copy there.
    ghost predicate Leaks()
      reads this, dev
    {
      cur / PAGES_PER_BLK == gcBlk && exists b :: b in dataList && !Busy(b) && B(b) in dev.vcount
                                                  && dev.vcount[B(b)] == 0
    }

    // inter_GC: copying victims one after the other frees a block, because a
    // round that frees none moves the cursor back within its block.  Each block
    // stays in its one place, but for GC_BLK exactly if it leaks.  The code stops
    // if no block may be collected, which room excludes.
    method InterGc() returns (block: int, stopped: bool)
      requires Valid() && freeList == [] && HasPlace()
      modifies this`index, this`free, this`cur, this`gcBlk, this`dataList, this`freeList, dev, buf, lpns
      ensures Valid() && MeaningKept(old(dev.State()), dev.State(), old(Region(bank, Lists(NOTHING))))
      ensures old(Roomy(dev.table, bank, dataList, if Leaks() then 1 else 0)) ==> !stopped
      ensures stopped ==> freeList == [] && !HasVictim()
      ensures old(cur / PAGES_PER_BLK != gcBlk) || !stopped ==> cur / PAGES_PER_BLK != gcBlk
      ensures gcBlk == VC_MAX <==> old(gcBlk == VC_MAX)
      ensures !stopped ==> freeList == [block] && B(block) in dev.vcount && dev.vcount[B(block)] == VC_MAX
      ensures !stopped ==> block != VC_MAX && (block in old(dataList) || block == old(gcBlk))
      ensures old(Outcome()) == Now(if stopped then VC_MAX else block)
      ensures forall rest, y ::
        Places(Lists(rest), y) == old(Places(Lists(rest), y)) - if old(Leaks()) && y == old(gcBlk) then 1 else 0
    {
      hide BankOk, MeaningKept, Roomy, Places, RoundOf, Leaks, Opens, Outcome, HasVictim, HasPlace;
      ghost var s0, b0 := dev.State(), Lists(NOTHING);
      InShape();
      KeptSelf(s0, Region(bank, b0));
      block, stopped := VC_MAX, false;
      while freeList == [] && !stopped
        invariant Valid() && MeaningKept(s0, dev.State(), Region(bank, b0))
        invariant Region(bank, Lists(NOTHING)) <= Region(bank, b0) && (gcBlk == VC_MAX <==> old(gcBlk == VC_MAX))
        invariant freeList == [] ==> HasPlace()
        invariant freeList == [] && old(Roomy(dev.table, bank, dataList, if Leaks() then 1 else 0)) ==>
          !stopped && Roomy(dev.table, bank, dataList, if Leaks() then 1 else 0)
        invariant stopped ==> freeList == [] && !HasVictim() && !Leaks()
        invariant old(cur / PAGES_PER_BLK != gcBlk) ==> cur / PAGES_PER_BLK != gcBlk
        invariant freeList != [] ==> freeList == [block] && B(block) in dev.vcount && dev.vcount[B(block)] == VC_MAX
        invariant freeList != [] ==> B(block) in Region(bank, b0) && !Leaks() && cur / PAGES_PER_BLK != gcBlk
        invariant old(Outcome()) ==
          if stopped then Now(VC_MAX) else if freeList == [] then Outcome() else Now(block)
        invariant Leaks() ==> old(Leaks()) && gcBlk == old(gcBlk)
        invariant forall rest, y ::
          Places(Lists(rest), y) == old(Places(Lists(rest), y))
            - if old(Leaks()) && !Leaks() && y == old(gcBlk) then 1 else 0
        decreases !stopped, if freeList == [] then 2 + 2 * (cur % PAGES_PER_BLK) + (if Leaks() then 1 else 0) else 0
      {
        ghost var s, b := dev.State(), Lists(NOTHING);
        if Roomy(dev.table, bank, dataList, if Leaks() then 1 else 0) { VictimAtHand(); }
        LeakHasVictim();
        if !HasVictim() {
          NoOutcome();
          stopped := true;
          continue;
        }
        block := NextRound();
        KeptTrans(s0, s, dev.State(), Region(bank, b0), Region(bank, b), Region(bank, b0));
      }
    }

    // A round of inter_GC and what the loop needs of it: if it frees no block,
    // the cursor is further to the front of its block and the room is kept.
    method NextRound() returns (block: int)
      requires Valid() && freeList == [] && HasPlace() && HasVictim()
      modifies this`index, this`free, this`cur, this`gcBlk, this`dataList, this`freeList, dev, buf, lpns
      ensures Valid() && MeaningKept(old(dev.State()), dev.State(), old(Region(bank, Lists(NOTHING))))
      ensures Region(bank, Lists(NOTHING)) <= old(Region(bank, Lists(NOTHING)))
      ensures cur / PAGES_PER_BLK != gcBlk && !Leaks() && (freeList == [] ==> HasPlace())
      ensures gcBlk == VC_MAX <==> old(gcBlk == VC_MAX)
      ensures B(block) in dev.vcount && dev.vcount[B(block)] == VC_MAX && B(block) in old(Region(bank, Lists(NOTHING)))
      ensures freeList == [] || freeList == [block]
      ensures freeList == [] ==> 2 * (cur % PAGES_PER_BLK) < old(2 * (cur % PAGES_PER_BLK) + if Leaks() then 1 else 0)
      ensures freeList == [] && old(Roomy(dev.table, bank, dataList, if Leaks() then 1 else 0)) ==>
        Roomy(dev.table, bank, dataList, 0)
      ensures old(Outcome()) == if freeList == [] then Outcome() else Now(block)
      ensures forall rest, y ::
        Places(Lists(rest), y) == old(Places(Lists(rest), y)) - if old(Leaks()) && y == old(gcBlk) then 1 else 0
    {
      hide BankOk, MeaningKept, Roomy, Places, RoundOf, Leaks, Opens, Outcome, HasVictim;
      ghost var b, c0, leak := Lists(NOTHING), cur, Leaks();
      InShape();
      ghost var count;
      block, count := Round();
      InShape();
      RoundCases(b, block, c0, count);
      RoundWithin(b, block, c0, count);
      CursorMoves(c0, EmptyOf(b), count);
      forall rest: Bank, y
        ensures Places(Lists(rest), y) ==
          Places(rest.(free := b.free, data := b.data, rw := b.rw, gc := b.gc), y)
            - if leak && y in b.gc then 1 else 0
      {
        RoundPlaces(rest.(free := b.free, data := b.data, rw := b.rw, gc := b.gc), block, c0, count, y);
      }
    }

    lemma InShape()
      requires Valid()
      ensures Shaped(dev.State()) && Placed(dev.State()) && SameMeaning(dev.State(), dev.State())
      ensures NoDup(dataList) && 0 <= cur && 0 <= gcBlk && forall b :: b in dataList || b in freeList ==> b != VC_MAX
      ensures cur / PAGES_PER_BLK != VC_MAX
      ensures cur / PAGES_PER_BLK == gcBlk ==> cur % PAGES_PER_BLK == PAGES_PER_BLK - 1
      ensures curRW % PAGES_PER_BLK == PAGES_PER_BLK - 1 ==> startedRW
    {
      assert gcBlk != VC_MAX ==> gcBlk in All(Lists(NOTHING));
      assert forall b :: b in dataList || b in freeList ==> b in All(Lists(NOTHING));
      SameSelf(dev.State());
      ApartFacts(Lists(NOTHING));
    }

    lemma LeakHasVictim()
      ensures Leaks() ==> HasVictim()
    {
    }

    lemma VictimAtHand()
      requires Valid() && (Roomy(dev.table, bank, dataList, 0) || Roomy(dev.table, bank, dataList, 1))
      ensures HasVictim()
    {
      ApartFacts(Lists(NOTHING));
      VictimExists(dev.table, bank, dataList, cur, curRW, curJN, curGc);
      assert forall b :: b in dataList ==> BlockOk(dev.State(), B(b), cur, curRW, curJN, curGc);
    }

    // One round: one victim.
    method Round() returns (vt: int, ghost count: int)
      requires Valid() && HasPlace() && HasVictim()
      modifies this`index, this`free, this`cur, this`gcBlk, this`dataList, this`freeList, dev, buf, lpns
      ensures Valid() && MeaningKept(old(dev.State()), dev.State(), old(Region(bank, Lists(NOTHING))))
      ensures vt in old(dataList) && 0 <= count == |LiveIn(old(dev.table), B(vt))| <= MOST_LIVE
      ensures old(Roundable(Lists(NOTHING), vt, cur, count)) && (gcBlk == VC_MAX <==> old(gcBlk == VC_MAX))
      ensures B(vt) in dev.vcount && dev.vcount[B(vt)] == VC_MAX
      ensures old(NextVictim(vt))
      ensures (old(Leaks()) <==> old(cur / PAGES_PER_BLK == gcBlk) && count == 0) && !Leaks()
      ensures cur / PAGES_PER_BLK != gcBlk
      ensures forall rest :: Lists(rest) == RoundOf(old(Lists(rest)), vt, old(cur), count)
      ensures cur == CursorAt(old(cur), old(gcBlk), count)
      ensures vt != old(gcBlk) && old(Outcome()) == if gcBlk == vt then Outcome() else Now(vt)
      ensures Opens(old(cur), count) ==>
        forall m :: Roomy(old(dev.table), bank, old(dataList), m) ==> Roomy(dev.table, bank, dataList, m)
      ensures old(Leaks()) && Roomy(old(dev.table), bank, old(dataList), 1) ==> Roomy(dev.table, bank, dataList, 0)
    {
      hide BankOk, MeaningKept, LiveIn, Region, Roomy, Leaks, RoundOf, Shaped, Placed, EndOf, Counts, Recounted;
      ghost var s, b, c := dev.State(), Lists(NOTHING), Writing();
      vt, count := CopyRound();
      GiveBack(vt);
      RoundCases(b, vt, c.sw, count);
      RoundRest(b, vt, c.sw, count);
      assert Lists(NOTHING) == RoundOf(b, vt, c.sw, count) && Writing() == c.(sw := cur);
      RoundOutcome(s, dev.State(), bank, b, c, vt, count);
      NotLeaking();
    }

    // Everything but giving the victim back.
    method CopyRound() returns (vt: int, ghost count: int)
      requires Valid() && HasPlace() && HasVictim()
      modifies this`index, this`free, this`dataList, dev, buf, lpns
      ensures Buffers() && index == 0 && vt in old(dataList)
      ensures Roundable(old(Lists(NOTHING)), vt, cur, count) && cur / PAGES_PER_BLK != VC_MAX
      ensures 0 <= count == |LiveIn(old(dev.table), B(vt))| <= MOST_LIVE
      ensures old(NextVictim(vt))
      ensures old(Leaks()) <==> cur / PAGES_PER_BLK == gcBlk && count == 0
      ensures MeaningKept(old(dev.State()), Returned(dev.State(), B(vt)), Region(bank, old(Lists(NOTHING))))
      ensures var b := old(Lists(NOTHING));
        && BankOk(Returned(dev.State(), B(vt)), bank, RoundOf(b, vt, cur, count), Writing().(sw := free))
        && dataList == RoundOf(b, vt, cur, count).data
      ensures free == CursorAt(cur, gcBlk, count) && vt != gcBlk && vt != VC_MAX
      ensures B(vt) in old(dev.vcount) && count == old(dev.vcount)[B(vt)]
      ensures Counts(Returned(dev.State(), B(vt)), bank, dataList)
        == Recounted(Counts(old(dev.State()), bank, old(dataList)), dataList, cur, gcBlk, count)
      ensures free / PAGES_PER_BLK == if Opens(cur, count) then gcBlk else cur / PAGES_PER_BLK
      ensures Opens(cur, count) ==>
        forall m :: Roomy(old(dev.table), bank, old(dataList), m) ==> Roomy(dev.table, bank, dataList, m)
      ensures old(Leaks()) && Roomy(old(dev.table), bank, old(dataList), 1) ==> Roomy(dev.table, bank, dataList, 0)
    {
      hide Dealt, Going, After, Gathered, BankOk, SameMeaning, Outside, Tidy, LiveIn, Region, Roomy, Leaks, Kept,
           Shaped, Placed, RoundOf, Track, Without, Counts, Recounted, HasPlace, Suffices, Departed;
      ghost var b, c, list := Lists(NOTHING), Writing(), dataList;
      var vcount;
      InShape();
      vt, vcount := ChooseVictim();
      count := vcount;
      LeaksIf(vt, vcount);
      FitsHere(vt, vcount);
      ghost var u := Depart(vt);
      dataList := Without(dataList, vt);
      free := cur;
      TrackStarts(u);
      ghost var k := Evacuate(vt, vcount, true, u, dataList);
      EvacuatedRound(u, k, list);
      Evacuated(u, b, c, vt, k, count);
    }

    // What is left to do is to give the victim back.
    lemma Evacuated(u: Run, b: Bank, c: Cursors, vt: int, k: int, count: int)
      requires Departed(u, bank, b, c, vt) && After(u, dev.State(), k) && LiveIn(dev.State().table, u.vt) == {}
      requires 0 <= count == |LiveIn(u.s0.table, u.vt)| <= MOST_LIVE && k == (count + SLOTS - 1) / SLOTS
      requires Unreached(u, dev.State(), b, c, count) && Dealt(u, dev.State(), count) && |b.gc| <= 1
      requires Roundable(b, vt, c.sw, count) && dataList == ListAfter(u, b.data, k) && free == Cursor(u, k)
      ensures MeaningKept(u.s0, Returned(dev.State(), B(vt)), Region(bank, b)) && vt !in b.gc
      ensures BankOk(Returned(dev.State(), B(vt)), bank, RoundOf(b, vt, c.sw, count), c.(sw := free))
      ensures dataList == RoundOf(b, vt, c.sw, count).data && free == CursorAt(c.sw, EmptyOf(b), count)
      ensures free / PAGES_PER_BLK == if Opens(c.sw, count) then EmptyOf(b) else c.sw / PAGES_PER_BLK
      ensures Counts(Returned(dev.State(), B(vt)), bank, dataList)
        == Recounted(Counts(u.s0, bank, b.data), dataList, c.sw, EmptyOf(b), count)
      ensures Opens(c.sw, count) ==>
        forall m :: Roomy(u.s0.table, bank, b.data, m) ==> Roomy(dev.table, bank, dataList, m)
      ensures count == 0 && !Opens(c.sw, count) && Roomy(u.s0.table, bank, b.data, 1) ==>
        Roomy(dev.table, bank, dataList, 0)
    {
      hide Dealt, After, BankOk, MeaningKept, LiveIn, Region, Roomy, RoundOf, ListAfter, Counts, Recounted, Apart;
      RoundLaw(u, dev.State(), bank, b, c, vt, k, count);
      RoundRoom(u, dev.State(), bank, b, c, vt, k, count);
      RoundCounts(u, dev.State(), bank, b, c, vt, count);
    }

    lemma FitsHere(vt: int, vcount: int)
      requires Valid() && HasPlace() && NextVictim(vt) && vt in dataList && B(vt) in dev.vcount
      requires vcount == dev.vcount[B(vt)] <= MOST_LIVE
      ensures Roundable(Lists(NOTHING), vt, cur, vcount) && cur / PAGES_PER_BLK != VC_MAX
    {
      InShape();
      ChosenFirst(dev.State(), bank, Lists(NOTHING), Writing(), vt);
    }

    lemma LeaksIf(vt: int, vcount: int)
      requires vt in dataList && !Busy(vt) && B(vt) in dev.vcount && 0 <= vcount == dev.vcount[B(vt)]
      requires forall b :: b in dataList && !Busy(b) && B(b) in dev.vcount ==> vcount <= dev.vcount[B(b)]
      ensures Leaks() <==> cur / PAGES_PER_BLK == gcBlk && vcount == 0
    {
    }

    lemma NotLeaking()
      ensures cur / PAGES_PER_BLK != gcBlk ==> !Leaks()
    {
    }

    // The copies of inter_GC go behind the write cursor.
    ghost method Depart(vt: int) returns (u: Run)
      requires Valid() && vt in dataList && !Busy(vt) && B(vt) in dev.vcount && dev.vcount[B(vt)] <= MOST_LIVE
      requires gcBlk == VC_MAX ==> !Opens(cur, dev.vcount[B(vt)])
      ensures u.wb == B(cur / PAGES_PER_BLK) && u.r == cur % PAGES_PER_BLK && u.s0 == dev.State() && u.vt == B(vt)
      ensures (gcBlk != VC_MAX ==> u.gc == B(gcBlk)) && Spared(u)
      ensures Departed(u, bank, Lists(NOTHING), Writing(), vt)
      ensures Holding(u, 0, 0) && |LiveIn(u.s0.table, u.vt)| == dev.vcount[B(vt)]
    {
      ApartFacts(Lists(NOTHING));
      var g := gcBlk;
      if gcBlk == VC_MAX {
        g := SomeBlock(dev.State(), bank, Lists(NOTHING));
      }
      u := Run(dev.State(), B(vt), B(cur / PAGES_PER_BLK), cur % PAGES_PER_BLK, B(g), TrackedList(vt));
      assert BlockOk(dev.State(), B(vt), cur, curRW, curJN, curGc);
      forall x | x in dataList
        ensures Tidy(dev.State(), B(x)) && x in All(Lists(NOTHING))
      {
        assert BlockOk(dev.State(), B(x), cur, curRW, curJN, curGc);
      }
      assert Ongoing(cur, vt) ==> Busy(vt);
      Starts(u);
      assert lpns[..index] == [] && buf[..index] == [];
    }

    // Erasing the victim: it becomes the empty block if the write pointer is in
    // the old one, and a free block otherwise.
    method GiveBack(vt: int)
      modifies this`cur, this`gcBlk, this`freeList, dev
      ensures dev.State() == Returned(old(dev.State()), B(vt)) && cur == old(free)
      ensures gcBlk == (if old(gcBlk) == old(free) / PAGES_PER_BLK then vt else old(gcBlk))
      ensures freeList == (if old(gcBlk) == old(free) / PAGES_PER_BLK then old(freeList) else old(freeList) + [vt])
    {
      dev.Erase(B(vt));
      dev.SetVcount(B(vt), VC_MAX);
      if gcBlk == free / PAGES_PER_BLK {
        gcBlk := vt;
      } else {
        dev.SetVcount(B(vt), VC_MAX);
        freeList := freeList + [vt];
      }
      cur := free;
    }

    // ---------------------------------------------- the allocators

    // The free block taken next: with none at hand, the one inter_GC frees.
    ghost function NextFree(): int
      reads this, dev
    {
      if freeList != [] then freeList[0] else Outcome().block
    }

    ghost function Reach(): set<Blk>
      reads this
    {
      Reachable(bank, Lists(NOTHING))
    }

    // get_free_block, or inter_GC if there is none.
    method TakeFree() returns (block: int, stopped: bool)
      requires Valid() && (freeList == [] ==> HasPlace())
      modifies this`index, this`free, this`cur, this`gcBlk, this`dataList, this`freeList, dev, buf, lpns
      ensures Valid() && (gcBlk == VC_MAX ==> old(gcBlk) == VC_MAX)
      ensures stopped ==> freeList == old(freeList) == [] && !HasVictim()
      ensures stopped <==> old(freeList == [] && Outcome().block == VC_MAX)
      ensures !stopped ==> block == old(NextFree())
      ensures !stopped ==> freeList != [] && block == freeList[0]
      ensures old(cur / PAGES_PER_BLK != gcBlk) ==> cur / PAGES_PER_BLK != gcBlk
      ensures MeaningKept(old(dev.State()), dev.State(), old(Region(bank, Lists(NOTHING))))
      ensures old(freeList) != [] ==>
        && dev.State() == old(dev.State()) && Writing() == old(Writing())
        && forall rest :: Lists(rest) == old(Lists(rest))
      ensures !stopped && old(freeList) == [] ==> freeList == [block] && (block in old(dataList) || block == old(gcBlk))
      ensures !stopped && old(freeList) == [] ==> old(Outcome()) == Now(block)
      ensures forall rest, y ::
        Places(Lists(rest), y) == old(Places(Lists(rest), y))
          - if old(freeList == [] && Leaks()) && y == old(gcBlk) then 1 else 0
    {
      hide BankOk, SameMeaning, Outside, Roomy, Region, Places, Leaks, Outcome, HasVictim, HasPlace;
      InShape();
      KeptSelf(dev.State(), Region(bank, Lists(NOTHING)));
      stopped := false;
      if freeList == [] {
        block, stopped := InterGc();
        InShape();
      } else {
        block := freeList[0];
      }
    }

    // The erasure of a block that is not marked erased, and its count.
    method OpenBlock(block: int)
      requires Shaped(dev.State()) && Placed(dev.State()) && FreeBlk(dev.State(), B(block))
      modifies dev`nand, dev`vcount
      ensures dev.table == old(dev.table) && dev.bits == old(dev.bits)
      ensures MeaningKept(old(dev.State()), dev.State(), {B(block)})
      ensures Blank(dev.State(), B(block), 0) && B(block) in dev.vcount && dev.vcount[B(block)] == 0
      ensures FreeBlk(dev.State(), B(block))
    {
      ghost var s := dev.State();
      SameSelf(s);
      var v := dev.GetVcount(B(block));
      if v == 0 {
        dev.Erase(B(block));
        WipedOk(s, B(block), dev.State());
      } else if v == VC_MAX {
        dev.SetVcount(B(block), 0);
      }
    }

    // The block just filled is the one that will be taken next.
    ghost predicate Retakes(cursor: int)
      reads this, dev
    {
      cursor % PAGES_PER_BLK == PAGES_PER_BLK - 1 && NextFree() == cursor / PAGES_PER_BLK
    }

    // Taking a log block will lose the empty block.
    ghost predicate RwLeaks()
      reads this, dev
    {
      curRW % PAGES_PER_BLK == PAGES_PER_BLK - 1 && freeList == [] && Leaks()
    }

    // The head of the free list joins the log list.
    method MoveToLog(taken: int)
      requires freeList != [] && taken == freeList[0]
      modifies this`freeList, this`rwList
      ensures freeList == old(freeList)[1..] && rwList == old(rwList) + [taken]
      ensures forall rest :: Lists(rest) == Apply(old(Lists(rest)), AllocRW)
      ensures forall rest, y :: Places(Lists(rest), y) == old(Places(Lists(rest), y))
    {
      hide Places;
      ghost var b := Lists(NOTHING);
      freeList := freeList[1..];
      rwList := rwList + [taken];
      forall rest: Bank, y
        ensures Places(Lists(rest), y) == Places(rest.(free := b.free, data := b.data, rw := b.rw, gc := b.gc), y)
      {
        StepConserves(rest.(free := b.free, data := b.data, rw := b.rw, gc := b.gc), AllocRW, y);
      }
    }

    // The case of a full log block: the next free block joins the log list and
    // is erased if need be.  write_start is set, the first block being full.
    method TakeLogBlock() returns (vpn: int, stopped: bool, ghost block: int)
      requires Valid() && curRW % PAGES_PER_BLK == PAGES_PER_BLK - 1 && (freeList == [] ==> HasPlace())
      modifies this`index, this`free, this`cur, this`gcBlk, this`dataList, this`freeList, this`curRW, this`rwList,
               dev, buf, lpns
      ensures MeaningKept(old(dev.State()), dev.State(), old(Reach())) && startedRW
      ensures stopped <==> old(freeList == [] && Outcome().block == VC_MAX)
      ensures stopped ==> Valid() && freeList == old(freeList) == [] && !HasVictim() && curRW == old(curRW)
      ensures old(cur / PAGES_PER_BLK != gcBlk) ==> cur / PAGES_PER_BLK != gcBlk
      ensures gcBlk == VC_MAX ==> old(gcBlk) == VC_MAX
      ensures old(freeList) != [] ==> cur == old(cur)
      ensures !stopped ==>
        && block == old(NextFree()) && curRW == vpn == NextVpn(old(curRW), block) && rwList == old(rwList) + [block]
        && (if old(freeList) != [] then
              block == old(freeList)[0] && forall rest :: Lists(rest) == Apply(old(Lists(rest)), AllocRW)
            else (block in old(dataList) || block == old(gcBlk)) && freeList == [] && old(Outcome()) == Now(block))
      ensures !stopped && block != old(curRW) / PAGES_PER_BLK ==>
        && RwPending(dev.State(), bank, Lists(NOTHING), Writing())
        && (B(block), 0) !in dev.nand && FreeBlk(dev.State(), B(block))
      ensures !stopped && block == old(curRW) / PAGES_PER_BLK && old(freeList != []) ==> dev.State() == old(dev.State())
      ensures forall rest, y ::
        Places(Lists(rest), y) == old(Places(Lists(rest), y))
          - if old(freeList == [] && Leaks()) && y == old(gcBlk) then 1 else 0
    {
      hide BankOk, SameMeaning, Outside, Roomy, Places, Leaks, Outcome, FreeBlk, ListsOk, DataOk, HasVictim, HasPlace;
      ghost var s0, t0, all := dev.State(), Region(bank, Lists(NOTHING)), Reach();
      InShape();
      vpn, block := curRW, curRW / PAGES_PER_BLK;
      var taken;
      taken, stopped := TakeFree();
      ghost var s, b, c := dev.State(), Lists(NOTHING), Writing();
      KeptMore(s0, s, t0, all);
      if stopped {
        return;
      }
      block := taken;
      FreeKnown(s, bank, b, c);
      vpn := JoinLog(taken);
      KeptTrans(s0, s, dev.State(), t0, {B(taken)}, all);
    }

    // The block joins the log list and the cursor goes to its first page.
    method JoinLog(taken: int) returns (vpn: int)
      requires Valid() && freeList != [] && taken == freeList[0] && startedRW
      requires curRW % PAGES_PER_BLK == PAGES_PER_BLK - 1
      modifies this`freeList, this`curRW, this`rwList, dev
      ensures MeaningKept(old(dev.State()), dev.State(), {B(taken)})
      ensures curRW == vpn == NextVpn(old(curRW), taken)
      ensures freeList == old(freeList)[1..] && rwList == old(rwList) + [taken]
      ensures forall rest :: Lists(rest) == Apply(old(Lists(rest)), AllocRW)
      ensures forall rest, y :: Places(Lists(rest), y) == old(Places(Lists(rest), y))
      ensures taken != old(curRW) / PAGES_PER_BLK ==>
        && RwPending(dev.State(), bank, Lists(NOTHING), Writing())
        && (B(taken), 0) !in dev.nand && FreeBlk(dev.State(), B(taken))
      ensures taken == old(curRW) / PAGES_PER_BLK ==> dev.State() == old(dev.State())
    {
      hide BankOk, SameMeaning, Outside, Places, FreeBlk, ListsOk, DataOk;
      ghost var s, b, c := dev.State(), Lists(NOTHING), Writing();
      InShape();
      KeptSelf(s, {B(taken)});
      FreeKnown(s, bank, b, c);
      vpn := curRW;
      MoveToLog(taken);
      if taken != vpn / PAGES_PER_BLK {
        vpn := taken * PAGES_PER_BLK;
        OpenBlock(taken);
        FreeTouched(s, dev.State(), bank, b, c, taken);
        OpenedRwPending(dev.State(), bank, b, c, taken);
        RwPendingPage(dev.State(), bank, Lists(NOTHING), c.(rw := vpn));
      } else {
        vpn := vpn + 1;
      }
      curRW := vpn;
    }

    // The next superpage for temporary writes: an erased page of a block of the
    // log list, unless the block just filled is taken again.  The code stops if
    // inter_GC finds no victim.
    method AssignNewWriteVpnRW() returns (vpn: int, stopped: bool, ghost block: int)
      requires Valid() && (curRW % PAGES_PER_BLK == PAGES_PER_BLK - 1 && freeList == [] ==> HasPlace())
      modifies this`index, this`free, this`cur, this`gcBlk, this`dataList, this`freeList, this`curRW, this`rwList,
               this`startedRW, dev, buf, lpns
      ensures MeaningKept(old(dev.State()), dev.State(), old(Reach())) && (!stopped ==> curRW == vpn && startedRW)
      ensures stopped <==> old(curRW % PAGES_PER_BLK == PAGES_PER_BLK - 1 && freeList == []
        && Outcome().block == VC_MAX)
      ensures stopped ==> Valid() && freeList == old(freeList) == [] && !HasVictim() && curRW == old(curRW)
      ensures !stopped && !old(Retakes(curRW)) ==>
        && RwPending(dev.State(), bank, Lists(NOTHING), Writing())
        && vpn / PAGES_PER_BLK in rwList && (B(vpn / PAGES_PER_BLK), vpn % PAGES_PER_BLK) !in dev.nand
        && (old(curRW) % PAGES_PER_BLK == PAGES_PER_BLK - 1 ==> vpn == block * PAGES_PER_BLK
                                                                && FreeBlk(dev.State(), B(block)))
      ensures (old(cur / PAGES_PER_BLK != gcBlk) ==> cur / PAGES_PER_BLK != gcBlk)
      ensures (gcBlk == VC_MAX ==> old(gcBlk) == VC_MAX)
      ensures old(curRW % PAGES_PER_BLK != PAGES_PER_BLK - 1 || freeList != []) ==> cur == old(cur)
      ensures old(curRW) % PAGES_PER_BLK != PAGES_PER_BLK - 1 ==>
        && vpn == old(if startedRW then curRW + 1 else curRW) && dev.State() == old(dev.State())
        && forall rest :: Lists(rest) == old(Lists(rest))
      ensures !stopped && old(curRW) % PAGES_PER_BLK == PAGES_PER_BLK - 1 ==>
        && block == old(NextFree()) && vpn == NextVpn(old(curRW), block) && rwList == old(rwList) + [block]
        && (if old(freeList) != [] then
              block == old(freeList)[0] && forall rest :: Lists(rest) == Apply(old(Lists(rest)), AllocRW)
            else (block in old(dataList) || block == old(gcBlk)) && freeList == [] && old(Outcome()) == Now(block))
      ensures old(Retakes(curRW) && freeList != []) ==> dev.State() == old(dev.State())
      ensures !stopped && old(Retakes(curRW)) ==> vpn == (block + 1) * PAGES_PER_BLK
      ensures forall rest, y ::
        Places(Lists(rest), y) == old(Places(Lists(rest), y)) - if old(RwLeaks()) && y == old(gcBlk) then 1 else 0
    {
      hide BankOk, SameMeaning, Outside, Roomy, Places, Leaks, Outcome, FreeBlk, ListsOk, DataOk, HasVictim, HasPlace;
      vpn, stopped, block := curRW, false, curRW / PAGES_PER_BLK;
      InShape();
      KeptSelf(dev.State(), Reach());
      if vpn % PAGES_PER_BLK == PAGES_PER_BLK - 1 {
        vpn, stopped, block := TakeLogBlock();
      } else {
        NextRwPending(dev.State(), bank, Lists(NOTHING), Writing());
        RwPendingPage(dev.State(), bank, Lists(NOTHING),
          Writing().(rw := if startedRW then curRW + 1 else curRW, startedRW := true));
        if startedRW {
          vpn := vpn + 1;
        } else {
          startedRW := true;
        }
        curRW := vpn;
      }
    }

    // Where a page can be had, it is an erased one, and no block is lost.
    method AllotLog() returns (vpn: int)
      requires Valid() && Allottable(dev.State(), bank, Lists(NOTHING), Writing(), RW)
      modifies this`index, this`free, this`cur, this`gcBlk, this`dataList, this`freeList, this`curRW, this`rwList,
               this`startedRW, dev, buf, lpns
      ensures MeaningKept(old(dev.State()), dev.State(), old(Reach())) && curRW == vpn && startedRW
      ensures RwPending(dev.State(), bank, Lists(NOTHING), Writing())
      ensures forall rest :: Reshuffled(old(Lists(rest)), Lists(rest), vpn / PAGES_PER_BLK)
      ensures if old(curRW % PAGES_PER_BLK == PAGES_PER_BLK - 1)
        then rwList == old(rwList) + [vpn / PAGES_PER_BLK] && vpn % PAGES_PER_BLK == 0
             && FreeBlk(dev.State(), B(vpn / PAGES_PER_BLK))
        else rwList == old(rwList) && vpn == old(if startedRW then curRW + 1 else curRW)
      ensures old(curRW % PAGES_PER_BLK != PAGES_PER_BLK - 1) ==>
        dev.State() == old(dev.State()) && forall rest :: Lists(rest) == old(Lists(rest))
      ensures old(curRW % PAGES_PER_BLK == PAGES_PER_BLK - 1) ==> vpn == old(NextFree()) * PAGES_PER_BLK
      ensures old(curRW % PAGES_PER_BLK == PAGES_PER_BLK - 1 && freeList != []) ==>
        forall rest :: Lists(rest) == Apply(old(Lists(rest)), AllocRW)
      ensures old(curRW % PAGES_PER_BLK == PAGES_PER_BLK - 1 && freeList == []) ==>
        freeList == [] && old(Outcome()) == Now(vpn / PAGES_PER_BLK)
      ensures old(freeList) != [] ==> dataList == old(dataList)
      ensures old(curRW % PAGES_PER_BLK != PAGES_PER_BLK - 1 || freeList != []) ==> cur == old(cur)
    {
      hide BankOk, MeaningKept, RwPending, FreeBlk, Places, Roomy, EndOf, Served, Reach;
      TrimToFree(dev.State(), bank, Lists(NOTHING), Writing());
      ghost var s := dev.State();
      InShape();
      assert RwLeaks() ==> Leaking(s, bank, Lists(NOTHING), Writing());
      ghost var block;
      var stopped;
      vpn, stopped, block := AssignNewWriteVpnRW();
      forall rest
        ensures Reshuffled(old(Lists(rest)), Lists(rest), vpn / PAGES_PER_BLK)
      {
        assert forall y :: Places(Lists(rest), y) == Places(old(Lists(rest)), y);
      }
    }

    // The next superpage for data: behind the cursor, in a free block, or behind
    // the copies garbage_collection makes.  It is erased unless the block just
    // filled is taken again, or inter_GC has moved the cursor before the first
    // write.
    method AssignNewWriteVpn() returns (vpn: int, ghost vt: int)
      requires Valid()
      requires (cur % PAGES_PER_BLK == PAGES_PER_BLK - 1 && freeList == [] ==> gcBlk != VC_MAX && HasVictim())
      modifies this`index, this`free, this`cur, this`gcBlk, this`dataList, this`freeList, this`startedSW, dev, buf, lpns
      ensures MeaningKept(old(dev.State()), dev.State(), old(Reach())) && cur == vpn
      ensures !old(MayMiss()) ==>
        && Pending(dev.State(), bank, Lists(NOTHING), Writing())
        && vpn / PAGES_PER_BLK in dataList && (B(vpn / PAGES_PER_BLK), vpn % PAGES_PER_BLK) !in dev.nand
        && vpn / PAGES_PER_BLK != gcBlk
      ensures startedSW <==> old(
        startedSW || cur % PAGES_PER_BLK != PAGES_PER_BLK - 1 || (freeList != [] && freeList[0] == cur / PAGES_PER_BLK))
      ensures old(cur) % PAGES_PER_BLK != PAGES_PER_BLK - 1 ==>
        && vpn == old(if startedSW then cur + 1 else cur) && dev.State() == old(dev.State())
        && (forall rest :: Lists(rest) == old(Lists(rest)))
        && ((B(vpn / PAGES_PER_BLK), vpn % PAGES_PER_BLK) !in dev.nand <==> !old(MayMiss()))
      ensures old(cur % PAGES_PER_BLK == PAGES_PER_BLK - 1 && freeList != []) ==>
        && vpn == old(FreshVpn(cur, freeList[0], startedSW))
        && forall rest :: Lists(rest) == Apply(old(Lists(rest)), AllocData)
      ensures old(cur % PAGES_PER_BLK == PAGES_PER_BLK - 1 && freeList == []) ==>
        && old(NextVictim(vt)) && vt in old(dataList) && B(vt) in old(dev.vcount)
        && vpn == old(gcBlk) * PAGES_PER_BLK + (old(dev.vcount)[B(vt)] + SLOTS - 1) / SLOTS
        && forall rest :: Lists(rest) == Apply(old(Lists(rest)), Collect(vt))
    {
      hide BankOk, SameMeaning, Outside, Places, FreeBlk, ListsOk, DataOk, Pending;
      vpn, vt := cur, VC_MAX;
      InShape();
      ghost var s0, t0, all := dev.State(), Region(bank, Lists(NOTHING)), Reach();
      KeptSelf(s0, all);
      if vpn % PAGES_PER_BLK == PAGES_PER_BLK - 1 {
        if freeList == [] {
          vt := GarbageCollection();
          KeptMore(s0, dev.State(), t0, all);
          PendingPage(dev.State(), bank, Lists(NOTHING), Writing());
          return cur, vt;
        }
        ghost var s, b, c := dev.State(), Lists(NOTHING), Writing();
        var taken := freeList[0];
        freeList := freeList[1..];
        dataList := dataList + [taken];
        if taken != vpn / PAGES_PER_BLK {
          vpn := taken * PAGES_PER_BLK;
          FreeKnown(s, bank, b, c);
          OpenBlock(taken);
          KeptMore(s, dev.State(), {B(taken)}, all);
          FreeTouched(s, dev.State(), bank, b, c, taken);
          OpenedPending(dev.State(), bank, b, c, taken);
          PendingPage(dev.State(), bank, Lists(NOTHING), c.(sw := vpn));
        } else if startedSW {
          vpn := vpn + 1;
        } else {
          startedSW := true;
        }
      } else if startedSW {
        NextPending(dev.State(), bank, Lists(NOTHING), Writing());
        PendingPage(dev.State(), bank, Lists(NOTHING), Writing().(sw := cur + 1));
        vpn := vpn + 1;
      } else {
        if !MayMiss() {
          FirstPending(dev.State(), bank, Lists(NOTHING), Writing());
          PendingPage(dev.State(), bank, Lists(NOTHING), Writing().(startedSW := true));
        }
        startedSW := true;
      }
      cur := vpn;
    }

    // The block just filled is the next free one, or the first superpage, which
    // the cursor is still on, has been written by inter_GC.
    ghost predicate MayMiss()
      reads this, dev
    {
      if cur % PAGES_PER_BLK == PAGES_PER_BLK - 1 then freeList != [] && freeList[0] == cur / PAGES_PER_BLK
      else !startedSW && (B(cur / PAGES_PER_BLK), cur % PAGES_PER_BLK) in dev.nand
    }

  }

  // The page assign_new_write_vpn_RW chooses when block `taken` follows a full one.
  function NextVpn(cursor: int, taken: int): int {
    if taken != cursor / PAGES_PER_BLK then taken * PAGES_PER_BLK else cursor + 1
  }

  // The write pointer for data after block `taken`: the increment is left out
  // before the first write.
  function FreshVpn(cursor: int, taken: int, started: bool): int {
    if started || taken != cursor / PAGES_PER_BLK then NextVpn(cursor, taken) else cursor
  }

  // It lies in the block taken exactly if that is not the block just filled;
  // otherwise it is the first page of the block behind, which nobody allocated.
  lemma NextVpnInBlock(cursor: int, taken: int)
    requires 0 <= cursor && cursor % PAGES_PER_BLK == PAGES_PER_BLK - 1
    ensures NextVpn(cursor, taken) / PAGES_PER_BLK == taken <==> taken != cursor / PAGES_PER_BLK
    ensures taken == cursor / PAGES_PER_BLK ==> NextVpn(cursor, taken) == (taken + 1) * PAGES_PER_BLK
  {
  }

  // Block 2 has been filled with temporary pages, remapped, collected and freed;
  // taking it again yields page 0 of block 3, which holds data.
  method RetakesFilledBlock() returns (vpn: int, taken: int)
    ensures taken == 2 && vpn == 3 * PAGES_PER_BLK
  {
    hide BankOk, RwPending, MeaningKept, Places, Region, Outside;
    var c := FilledOnce();
    ghost var block;
    var stopped;
    vpn, stopped, block := c.AssignNewWriteVpnRW();
    taken := c.rwList[0];
  }

  lemma NothingShaped(s: Flash)
    requires s.nand == map[]
    ensures Shaped(s)
  {
  }

  method FilledOnce() returns (c: Collector)
    ensures fresh(c) && fresh(c.dev) && fresh(c.buf) && fresh(c.lpns) && c.Valid()
    ensures c.curRW == 2 * PAGES_PER_BLK + PAGES_PER_BLK - 1 && c.freeList == [2, 0] && c.rwList == []
    ensures c.dataList == [3]
  {
    hide BankOk;
    c := SixBlocks();
    Refilled(c.dev.State());
    c.curRW, c.startedRW, c.rwList, c.freeList := 2 * PAGES_PER_BLK + PAGES_PER_BLK - 1, true, [], [2, 0];
  }

  // A bank of six blocks as RSP_Open leaves it: block 3 for data, block 2 for
  // temporary pages, block 4 empty, block 0 free.
  method SixBlocks() returns (c: Collector)
    ensures fresh(c) && fresh(c.dev) && fresh(c.buf) && fresh(c.lpns) && c.Valid() && c.bank == 0
    ensures c.freeList == [0] && c.dataList == [3] && c.rwList == [2] && c.gcBlk == 4
    ensures c.Lists(NOTHING) == OpenLists(6, 0) && c.Writing() == OpenCursors(6, 0)
    ensures c.cur == 3 * PAGES_PER_BLK && c.curRW == 2 * PAGES_PER_BLK
    ensures Blk(0, 2) in c.dev.vcount && (c.dev.vcount[Blk(0, 2)] == 0 || c.dev.vcount[Blk(0, 2)] == VC_MAX)
    ensures c.dev.table == [] && c.dev.bits == {} && Blk(0, 3) in c.dev.vcount && c.dev.vcount[Blk(0, 3)] == 0
  {
    hide BankOk, Outside, AfterOpen, Down, Shaped;
    var d := new Device(0);
    var frames, addresses := new Data[SLOTS + 1], new int[SLOTS];
    NothingShaped(d.State());
    c := new Collector.Open(d, 0, 6, 0, frames, addresses);
    OpenBlocks(6, 0);
    NothingCounted(d.State(), c.Lists(NOTHING), c.Writing(), 3);
  }

  lemma NothingCounted(s: Flash, b: Bank, c: Cursors, x: int)
    requires BankOk(s, 0, b, c) && s.table == [] && x in b.data
    ensures Blk(0, x) in s.vcount && s.vcount[Blk(0, x)] == 0
  {
    assert BlockOk(s, Blk(0, x), c.sw, c.rw, c.jn, c.gc);
  }

  lemma FullBehind(s: Flash, b: Bank, c: Cursors)
    requires BankOk(s, 0, b, c) && s.bits == {} && b.data == [3] && c == OpenCursors(6, 0)
    ensures BankOk(s, 0, b, c.(sw := 4 * PAGES_PER_BLK + PAGES_PER_BLK - 1))
  {
    hide Places, Tidy, FreeBlk, LogOk;
    assert BlockOk(s, Blk(0, 3), c.sw, c.rw, c.jn, c.gc);
  }

  // Block 4 has been filled with data, collected and freed, and has become the
  // empty block while the write pointer was still at its end: a victim without
  // live pages replaces it, and it is in no list.
  method LosesEmptyBlock() returns (c: Collector)
    ensures fresh(c) && fresh(c.dev) && c.Valid() && c.gcBlk == 3
    ensures 4 !in c.freeList + c.dataList + c.rwList && c.cur / PAGES_PER_BLK == 4
  {
    hide BankOk, MeaningKept, Places, Region, Outside, Served, EndOf, Roomy;
    c := SixBlocks();
    FullBehind(c.dev.State(), c.Lists(NOTHING), c.Writing());
    c.cur := 4 * PAGES_PER_BLK + PAGES_PER_BLK - 1;
    assert 3 in c.dataList && !c.Busy(3) && c.B(3) == Blk(0, 3);
    assert c.Leaks() && c.HasVictim();
    c.EmptyServes();
    ghost var count;
    var vt;
    vt, count := c.Round();
  }

  lemma CopiedBehind(s: Flash, b: Bank, c: Cursors)
    requires BankOk(s, 0, b, c) && s.bits == {} && s.table == [] && c == OpenCursors(6, 0) && c.sw == 3 * PAGES_PER_BLK
    requires b.data == [3] && b.free == [0] && b.rw == [2] && b.gc == [4]
    ensures BankOk(s.(nand := s.nand[(Blk(0, 3), 1) := NO_CELLS]), 0, b, c.(sw := 3 * PAGES_PER_BLK + 1))
  {
    hide Places;
    var s' := s.(nand := s.nand[(Blk(0, 3), 1) := NO_CELLS]);
    assert BlockOk(s, Blk(0, 3), c.sw, c.rw, c.jn, c.gc);
    assert forall x: Blk :: LiveIn(s'.table, x) == {};
    assert BlockOk(s', Blk(0, 3), c.sw + 1, c.rw, c.jn, c.gc);
  }

  // Temporary pages have been collected behind the first page for data before
  // anything was written there: the next superpage is the one just programmed.
  method HandsOutProgrammed() returns (c: Collector, vpn: int)
    ensures fresh(c) && fresh(c.dev) && c.bank == 0 && vpn == 3 * PAGES_PER_BLK + 1 && (Blk(0, 3), 1) in c.dev.nand
  {
    hide BankOk, MeaningKept, Places, Region, Outside, Pending;
    c := SixBlocks();
    CopiedBehind(c.dev.State(), c.Lists(NOTHING), c.Writing());
    c.dev.nand := c.dev.nand[(Blk(0, 3), 1) := NO_CELLS];
    c.cur := 3 * PAGES_PER_BLK + 1;
    ghost var vt;
    vpn, vt := c.AssignNewWriteVpn();
  }

  const NO_CELLS: seq<Cell> := seq(SLOTS, _ => Cell(0, INVALID_LPN, INVALID_LPN))

  lemma InTable(s: Flash, p: Place)
    requires Shaped(s) && InBlock(p) && (p.blk, p.page) in s.nand
    ensures Effective(CellAt(s, p)) == INVALID_LPN || 0 <= Effective(CellAt(s, p)) < |s.table|
  {
  }
}
