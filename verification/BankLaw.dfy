/** What holds of the blocks of one bank between any two operations: where the
    lists put them, what is erased, and what a collector may rely on
    (ATLWrapper.cpp:192-312, 1683-1796, 3020-3065). */
module BankLaw {
  import opened Layout
  import opened SetSizes
  import opened FlashState
  import opened GcModel
  import opened GcSpace
  import opened BlockPartition
  import opened Forecast
  import opened VictimChoice

  // cur_write_vpn, cur_write_vpn_RW, cur_write_vpn_JN, cur_gc_vpn, and write_start
  // of data and of temporary pages.
  datatype Cursors = Cursors(sw: int, rw: int, jn: int, gc: int, startedSW: bool, startedRW: bool)

  // A free block holds nothing that is mapped, and is erased if it says so.
  ghost predicate FreeBlk(s: Flash, b: Blk) {
    && LiveIn(s.table, b) == {} && b in s.vcount
    && (s.vcount[b] == 0 || (s.vcount[b] == VC_MAX && Blank(s, b, 0)))
  }

  // The blocks of the log list are counted and, but for the one being written,
  // whole; in that one page `next` is the first to be programmed.
  ghost predicate RwOk(s: Flash, n: int, list: seq<int>, cursor: int, next: int) {
    && 0 <= cursor
    && (forall x :: x in list ==> Blk(n, x) in s.vcount && 0 <= s.vcount[Blk(n, x)] <= BLK_LPAGES)
    && (forall x :: x in list && (x != cursor / PAGES_PER_BLK || next == PAGES_PER_BLK) ==>
      Legible(s, Blk(n, x), PAGES_PER_BLK))
    && (next < PAGES_PER_BLK ==>
          var b := Blk(n, cursor / PAGES_PER_BLK);
          b.no in list && Legible(s, b, next - 1) && Blank(s, b, next))
  }

  // Where the next temporary superpage goes in its block.
  function NextRw(cursor: int, started: bool): int {
    if started then cursor % PAGES_PER_BLK + 1 else 0
  }

  ghost predicate LogOk(s: Flash, n: int, list: seq<int>, cursor: int, started: bool) {
    RwOk(s, n, list, cursor, NextRw(cursor, started)) && (started || cursor % PAGES_PER_BLK == 0)
  }

  ghost function All(b: Bank): seq<int> {
    b.free + b.data + b.rw + b.victims + b.gc
  }

  // The blocks collection may write, move and erase.
  ghost function Region(n: int, b: Bank): set<Blk> {
    set x | x in b.data + b.gc :: Blk(n, x)
  }

  // The blocks an allocation may write or erase.
  ghost function Reachable(n: int, b: Bank): set<Blk> {
    set x | x in b.data + b.gc + b.free :: Blk(n, x)
  }

  // The lists are disjoint; free blocks hold nothing, the empty block is erased.
  ghost predicate ListsOk(s: Flash, n: int, b: Bank) {
    && Apart(b) && |b.gc| <= 1 && (forall x :: x in All(b) ==> 0 <= x < NO_BLOCK)
    && (forall x :: x in b.gc ==> Blank(s, Blk(n, x), 0) && FreeBlk(s, Blk(n, x)))
    && (forall x :: x in b.free ==> FreeBlk(s, Blk(n, x)))
  }

  // The blocks of the data list, and the cursors in it.
  ghost predicate DataOk(s: Flash, n: int, b: Bank, c: Cursors)
    requires Shaped(s) && Placed(s)
  {
    && (forall x :: x in b.data ==> BlockOk(s, Blk(n, x), c.sw, c.rw, c.jn, c.gc))
    && CursorOk(s, n, b.data, c.sw) && CursorOk(s, n, b.data, c.gc)
    && (forall x :: Ongoing(c.sw, x) ==> !Ongoing(c.gc, x))
  }

  ghost predicate BankOk(s: Flash, n: int, b: Bank, c: Cursors) {
    && Shaped(s) && Placed(s) && |s.table| <= INVALID_LPN
    && ListsOk(s, n, b) && DataOk(s, n, b, c) && LogOk(s, n, b.rw, c.rw, c.startedRW)
  }

  // The lists collection works on.
  function Trim(b: Bank): Bank {
    NOTHING.(free := b.free, data := b.data, rw := b.rw, gc := b.gc)
  }

  // Every page means the same, blocks outside `touched` are as they were, and
  // none has become less exact.
  ghost predicate MeaningKept(s0: Flash, s: Flash, touched: set<Blk>) {
    && Shaped(s0) && Placed(s0) && Shaped(s) && Placed(s) && SameMeaning(s0, s)
    && Outside(s0, s, touched) && (forall b :: Exact(s0, b) ==> Exact(s, b))
  }

  lemma KeptSelf(s: Flash, touched: set<Blk>)
    requires Shaped(s) && Placed(s)
    ensures MeaningKept(s, s, touched)
  {
  }

  lemma KeptMore(a: Flash, b: Flash, t: set<Blk>, t': set<Blk>)
    requires MeaningKept(a, b, t) && t <= t'
    ensures MeaningKept(a, b, t')
  {
  }

  lemma KeptTrans(a: Flash, b: Flash, c: Flash, t: set<Blk>, t': set<Blk>, all: set<Blk>)
    requires MeaningKept(a, b, t) && MeaningKept(b, c, t') && t <= all && t' <= all
    ensures MeaningKept(a, c, all)
  {
    KeptMore(a, b, t, all);
    OutsideTrans(a, b, c, all, t');
  }

  // ------------------------------------------------ what collection leaves alone

  lemma LiveOutside(s0: Flash, s: Flash, touched: set<Blk>, b: Blk)
    requires Outside(s0, s, touched) && b !in touched
    ensures LiveIn(s.table, b) == LiveIn(s0.table, b)
  {
  }

  lemma FreeOutside(s0: Flash, s: Flash, touched: set<Blk>, b: Blk)
    requires Outside(s0, s, touched) && b !in touched && FreeBlk(s0, b)
    ensures FreeBlk(s, b)
  {
    LiveOutside(s0, s, touched, b);
  }

  lemma RwOutside(s0: Flash, s: Flash, n: int, b: Bank, c: Cursors)
    requires Outside(s0, s, Region(n, b)) && Apart(b) && LogOk(s0, n, b.rw, c.rw, c.startedRW)
    ensures LogOk(s, n, b.rw, c.rw, c.startedRW)
  {
    ApartFacts(b);
  }

  // ------------------------------------------------ one round of inter_GC

  // With no empty block the run is given a block that is not the bank's, which
  // it will not reach.
  ghost predicate Elsewhere(s: Flash, b: Bank, g: Blk) {
    0 <= g.no && g.no !in All(b) && Bare(s, g) && g !in s.vcount
  }

  ghost predicate Bare(s: Flash, g: Blk) {
    forall x :: x in s.nand ==> x.0 != g
  }

  lemma SomeBlock(s: Flash, n: int, b: Bank) returns (g: int)
    ensures Elsewhere(s, b, Blk(n, g))
  {
    var pages := Above(s.nand.Keys, (x: (Blk, int)) => x.0.no);
    var counted := Above(s.vcount.Keys, (x: Blk) => x.no);
    var all := set x | x in All(b);
    var listed := Above(all, (x: int) => x);
    g := pages + counted + listed;
    assert Blk(n, g) in s.vcount.Keys ==> Blk(n, g).no < counted;
    assert forall x :: x in s.nand.Keys ==> x.0.no < pages;
    assert g in All(b) ==> g in all;
  }

  // It has not been reached.
  ghost predicate Unreached(u: Run, s: Flash, b: Bank, c: Cursors, count: int) {
    b.gc == [] ==> !Opens(c.sw, count) && u.gc !in s.vcount
  }

  lemma EmptyBlock(u: Run, n: int, b: Bank, c: Cursors, vt: int)
    requires Departed(u, n, b, c, vt)
    ensures NoDup(b.data) && u.gc.no !in b.data && 0 <= u.gc.no && Blank(u.s0, u.gc, 0) && |b.gc| <= 1
    ensures b.gc != [] ==> u.gc.no < NO_BLOCK && b.gc == [u.gc.no]
    ensures forall x :: x in b.free ==> x !in b.data && x != u.gc.no
  {
    ApartFacts(b);
    if b.gc != [] { assert b.gc == [b.gc[0]] && b.gc[0] in All(b); }
    assert forall x :: x in b.data || x in b.free ==> x in All(b);
  }

  // The round that evacuates `vt` behind the write cursor.
  ghost predicate Departed(u: Run, n: int, b: Bank, c: Cursors, vt: int) {
    && vt in b.data && !Skipped(vt, c.sw, c.rw, c.jn, c.gc) && BankOk(u.s0, n, b, c)
    && u.vt == Blk(n, vt) && u.wb == Blk(n, c.sw / PAGES_PER_BLK) && u.r == c.sw % PAGES_PER_BLK
    && u.gc.bank == n && (if b.gc != [] then u.gc.no == b.gc[0] else Elsewhere(u.s0, b, u.gc))
    && u.tracked == set x | x in b.data && x != vt :: Blk(n, x)
  }

  lemma RoundData(u: Run, s: Flash, n: int, b: Bank, c: Cursors, vt: int, k: int, count: int)
    requires Departed(u, n, b, c, vt) && After(u, s, k) && LiveIn(s.table, u.vt) == {}
    requires 0 <= count <= MOST_LIVE && k == (count + SLOTS - 1) / SLOTS && Unreached(u, s, b, c, count)
    ensures var s', b' := Returned(s, u.vt), RoundOf(b, vt, c.sw, count);
      && Shaped(s') && Placed(s') && SameMeaning(u.s0, s') && b'.data == ListAfter(u, b.data, k)
      && DataOk(s', n, b', c.(sw := Cursor(u, k)))
  {
    hide Tidy, Legible, Blank, SameMeaning, LiveIn, Places;
    EmptyBlock(u, n, b, c, vt);
    assert Without(b.data, vt) + [] == Without(b.data, vt);
    WithoutFacts(b.data, vt);
    ReturnedOk(u, s, k);
    CursorAfter(u, s, k, b.data, c.sw);
    BlocksAfter(u, s, k, b.data, c.sw, c.rw, c.jn, c.gc);
    OtherCursor(u, s, n, b, c, vt, k);
  }

  // The cursor of incremental collection is in another block.
  lemma OtherCursor(u: Run, s: Flash, n: int, b: Bank, c: Cursors, vt: int, k: int)
    requires Departed(u, n, b, c, vt) && After(u, s, k) && LiveIn(s.table, u.vt) == {} && NoDup(b.data)
    requires u.gc.no !in b.data
    ensures CursorOk(Returned(s, u.vt), n, ListAfter(u, b.data, k), c.gc)
  {
    hide Tidy, SameMeaning, LiveIn, Places, ListsOk, Kept, Carried;
    WithoutFacts(b.data, vt);
    var x, s' := Blk(n, c.gc / PAGES_PER_BLK), Returned(s, u.vt);
    if c.gc % PAGES_PER_BLK != PAGES_PER_BLK - 1 {
      assert Ongoing(c.gc, x.no);
      LegibleKept(u, s, k, x);
      assert x != u.vt && x != u.gc && (u.r < PAGES_PER_BLK - 1 ==> Ongoing(c.sw, u.wb.no) && x != u.wb);
      forall p | c.gc % PAGES_PER_BLK + 1 <= p
        ensures (x, p) !in s'.nand
      {
        assert (x, p) !in u.s0.nand;
      }
    }
  }

  // A round leaves alone what is outside the data list and the empty block.
  lemma RoundRegion(u: Run, s: Flash, n: int, b: Bank, c: Cursors, vt: int, k: int, count: int)
    requires Departed(u, n, b, c, vt) && After(u, s, k) && LiveIn(s.table, u.vt) == {}
    requires 0 <= count <= MOST_LIVE && k == (count + SLOTS - 1) / SLOTS && Unreached(u, s, b, c, count)
    ensures Outside(u.s0, Returned(s, u.vt), Region(n, b))
  {
    hide Tidy, Legible, SameMeaning, Places, Kept, Carried, DataOk, LogOk, CursorOk, FreeBlk, Outside, After,
         LiveIn, Blank;
    EmptyBlock(u, n, b, c, vt);
    RoundOutside(u, s, k, Region(n, b) + {u.gc});
    if b.gc == [] {
      assert Elsewhere(u.s0, b, u.gc) && u.r + k < PAGES_PER_BLK;
      NotReached(u, s, k);
      ReturnedOk(u, s, k);
      OutsideLess(u.s0, Returned(s, u.vt), Region(n, b), u.gc);
    } else {
      assert Region(n, b) + {u.gc} == Region(n, b);
    }
  }

  lemma NotReached(u: Run, s: Flash, k: int)
    requires After(u, s, k) && u.r + k < PAGES_PER_BLK
    ensures (Bare(u.s0, u.gc) ==> Bare(Returned(s, u.vt), u.gc)) && u.gc != u.vt
    ensures Bare(u.s0, u.gc) ==> forall x :: x in s.bits && x !in u.s0.bits ==> x.Nand? && x.blk != u.gc
  {
  }

  lemma OutsideLess(s0: Flash, s: Flash, touched: set<Blk>, g: Blk)
    requires Outside(s0, s, touched + {g}) && Placed(s0) && Placed(s) && Bare(s0, g) && Bare(s, g)
    requires g !in s0.vcount && g !in s.vcount
    requires forall x :: x in s.bits && x !in s0.bits ==> x.Nand? && x.blk != g
    ensures Outside(s0, s, touched)
  {
  }

  lemma RoundLists(u: Run, s: Flash, n: int, b: Bank, c: Cursors, vt: int, k: int, count: int)
    requires Departed(u, n, b, c, vt) && After(u, s, k) && LiveIn(s.table, u.vt) == {}
    requires 0 <= count <= MOST_LIVE && k == (count + SLOTS - 1) / SLOTS && Unreached(u, s, b, c, count)
    ensures var s', b' := Returned(s, u.vt), RoundOf(b, vt, c.sw, count);
      Outside(u.s0, s', Region(n, b)) && ListsOk(s', n, b') && LogOk(s', n, b'.rw, c.rw, c.startedRW)
  {
    hide Tidy, Legible, SameMeaning, Places, Kept, Carried, DataOk, LogOk, CursorOk, FreeBlk, Blank, After, LiveIn;
    var s', b' := Returned(s, u.vt), RoundOf(b, vt, c.sw, count);
    EmptyBlock(u, n, b, c, vt);
    RoundRegion(u, s, n, b, c, vt, k, count);
    RwOutside(u.s0, s', n, b, c);
    RoundApart(b, vt, c.sw, count);
    WithoutFacts(b.data, vt);
    RoundFree(u, s, n, b, c, vt, k, count);
    RoundEmpty(u, s, n, b, c, vt, k, count);
    forall x | x in All(b')
      ensures 0 <= x < NO_BLOCK
    {
      assert x in All(b);
    }
  }

  lemma RoundFree(u: Run, s: Flash, n: int, b: Bank, c: Cursors, vt: int, k: int, count: int)
    requires Departed(u, n, b, c, vt) && After(u, s, k) && LiveIn(s.table, u.vt) == {}
    requires Outside(u.s0, Returned(s, u.vt), Region(n, b)) && forall x :: x in b.free ==> x !in b.data && x !in b.gc
    requires Roundable(b, vt, c.sw, count)
    ensures forall x :: x in RoundOf(b, vt, c.sw, count).free ==> FreeBlk(Returned(s, u.vt), Blk(n, x))
  {
    hide Tidy, Legible, SameMeaning, Places, Kept, Carried, DataOk, LogOk, CursorOk;
    var s', b' := Returned(s, u.vt), RoundOf(b, vt, c.sw, count);
    ReturnedOk(u, s, k);
    forall x | x in b'.free
      ensures FreeBlk(s', Blk(n, x))
    {
      if x in b.free { FreeOutside(u.s0, s', Region(n, b), Blk(n, x)); }
    }
  }

  lemma RoundEmpty(u: Run, s: Flash, n: int, b: Bank, c: Cursors, vt: int, k: int, count: int)
    requires Departed(u, n, b, c, vt) && After(u, s, k) && LiveIn(s.table, u.vt) == {}
    requires 0 <= count <= MOST_LIVE && k == (count + SLOTS - 1) / SLOTS && Unreached(u, s, b, c, count)
    ensures forall x :: x in RoundOf(b, vt, c.sw, count).gc ==>
      Blank(Returned(s, u.vt), Blk(n, x), 0) && FreeBlk(Returned(s, u.vt), Blk(n, x))
  {
    hide Tidy, Legible, SameMeaning, Places, Kept, Carried, DataOk, LogOk, CursorOk, Programmed, Others;
    ReturnedOk(u, s, k);
    ReturnedBlocks(u, s, k);
    if u.gc.no != vt && Blank(Returned(s, u.vt), u.gc, 0) { NoneLive(Returned(s, u.vt), u.gc); }
  }

  // ------------------------------------------------ a page about to be written

  // As BankOk, but the page under the data cursor is still to be written.
  ghost predicate Pending(s: Flash, n: int, b: Bank, c: Cursors) {
    var x := Blk(n, c.sw / PAGES_PER_BLK);
    && Shaped(s) && Placed(s) && |s.table| <= INVALID_LPN
    && ListsOk(s, n, b) && LogOk(s, n, b.rw, c.rw, c.startedRW) && CursorOk(s, n, b.data, c.gc)
    && 0 <= c.sw && x.no in b.data && !Ongoing(c.gc, x.no)
    && Tidy(s, x) && Legible(s, x, c.sw % PAGES_PER_BLK - 1) && Blank(s, x, c.sw % PAGES_PER_BLK)
    && (forall y :: y in b.data && y != x.no ==> BlockOk(s, Blk(n, y), c.sw, c.rw, c.jn, c.gc))
  }

  lemma PendingPage(s: Flash, n: int, b: Bank, c: Cursors)
    requires Pending(s, n, b, c)
    ensures c.sw / PAGES_PER_BLK in b.data && (Blk(n, c.sw / PAGES_PER_BLK), c.sw % PAGES_PER_BLK) !in s.nand
    ensures c.sw / PAGES_PER_BLK !in b.gc && 0 <= c.sw / PAGES_PER_BLK < NO_BLOCK
  {
    ApartFacts(b);
    assert c.sw / PAGES_PER_BLK in All(b);
  }

  lemma RwPendingPage(s: Flash, n: int, b: Bank, c: Cursors)
    requires RwPending(s, n, b, c)
    ensures c.rw / PAGES_PER_BLK in b.rw && (Blk(n, c.rw / PAGES_PER_BLK), c.rw % PAGES_PER_BLK) !in s.nand
  {
  }

  lemma FreeKnown(s: Flash, n: int, b: Bank, c: Cursors)
    requires BankOk(s, n, b, c)
    ensures forall x :: x in b.free ==> FreeBlk(s, Blk(n, x))
  {
  }

  // The next page of the block being written.
  lemma NextPending(s: Flash, n: int, b: Bank, c: Cursors)
    requires BankOk(s, n, b, c) && c.sw % PAGES_PER_BLK != PAGES_PER_BLK - 1
    ensures Pending(s, n, b, c.(sw := c.sw + 1))
  {
    hide Tidy, ListsOk, LogOk;
    var c' := c.(sw := c.sw + 1);
    assert Ongoing(c.sw, c.sw / PAGES_PER_BLK) && c'.sw / PAGES_PER_BLK == c.sw / PAGES_PER_BLK;
    assert BlockOk(s, Blk(n, c.sw / PAGES_PER_BLK), c.sw, c.rw, c.jn, c.gc);
    forall y | y in b.data && y != c.sw / PAGES_PER_BLK
      ensures BlockOk(s, Blk(n, y), c'.sw, c.rw, c.jn, c.gc)
    {
      assert BlockOk(s, Blk(n, y), c.sw, c.rw, c.jn, c.gc);
    }
  }

  // The very first page, if nothing has been written to it.
  lemma FirstPending(s: Flash, n: int, b: Bank, c: Cursors)
    requires BankOk(s, n, b, c) && c.sw % PAGES_PER_BLK != PAGES_PER_BLK - 1
    requires (Blk(n, c.sw / PAGES_PER_BLK), c.sw % PAGES_PER_BLK) !in s.nand
    ensures Pending(s, n, b, c.(startedSW := true))
  {
    hide Tidy, ListsOk, LogOk;
    assert Ongoing(c.sw, c.sw / PAGES_PER_BLK);
    assert BlockOk(s, Blk(n, c.sw / PAGES_PER_BLK), c.sw, c.rw, c.jn, c.gc);
  }

  // The first page of a block just opened for data.
  lemma OpenedPending(s: Flash, n: int, b: Bank, c: Cursors, x: int)
    requires BankOk(s, n, b, c) && c.sw % PAGES_PER_BLK == PAGES_PER_BLK - 1 && b.free != [] && x == b.free[0]
    requires Blank(s, Blk(n, x), 0) && Blk(n, x) in s.vcount && s.vcount[Blk(n, x)] == 0
    ensures Pending(s, n, Apply(b, AllocData), c.(sw := x * PAGES_PER_BLK))
  {
    hide Carried, LogOk;
    var b', c' := Apply(b, AllocData), c.(sw := x * PAGES_PER_BLK);
    StepApart(b, AllocData);
    ApartFacts(b);
    NoneLive(s, Blk(n, x));
    assert x in b.free && x in All(b);
    forall y | y in b'.data && y != x
      ensures BlockOk(s, Blk(n, y), c'.sw, c.rw, c.jn, c.gc)
    {
      assert BlockOk(s, Blk(n, y), c.sw, c.rw, c.jn, c.gc);
    }
    forall y | y in All(b')
      ensures 0 <= y < NO_BLOCK
    {
      assert y in All(b);
    }
  }

  // As BankOk, but the page under the cursor of temporary pages is still to be
  // written.
  ghost predicate RwPending(s: Flash, n: int, b: Bank, c: Cursors) {
    && Shaped(s) && Placed(s) && |s.table| <= INVALID_LPN
    && ListsOk(s, n, b) && DataOk(s, n, b, c) && RwOk(s, n, b.rw, c.rw, c.rw % PAGES_PER_BLK) && c.startedRW
  }

  // The next page of the log block being written, or its first one.
  lemma NextRwPending(s: Flash, n: int, b: Bank, c: Cursors)
    requires BankOk(s, n, b, c) && c.rw % PAGES_PER_BLK != PAGES_PER_BLK - 1
    ensures RwPending(s, n, b, c.(rw := if c.startedRW then c.rw + 1 else c.rw, startedRW := true))
  {
    hide Tidy, ListsOk, Legible, Blank, CursorOk;
    var c' := c.(rw := if c.startedRW then c.rw + 1 else c.rw, startedRW := true);
    assert c'.rw / PAGES_PER_BLK == c.rw / PAGES_PER_BLK && c'.rw % PAGES_PER_BLK == NextRw(c.rw, c.startedRW);
    forall y | y in b.data
      ensures BlockOk(s, Blk(n, y), c'.sw, c'.rw, c'.jn, c'.gc)
    {
      assert BlockOk(s, Blk(n, y), c.sw, c.rw, c.jn, c.gc) && y != c.rw / PAGES_PER_BLK by { ApartLists(s, n, b); }
    }
  }

  lemma ApartLists(s: Flash, n: int, b: Bank)
    requires ListsOk(s, n, b)
    ensures forall x :: x in b.data ==> x !in b.rw && x !in b.free
    ensures forall x :: x in b.free ==> x !in b.rw
  {
    ApartFacts(b);
  }

  // The first page of a block just opened for temporary pages.
  lemma OpenedRwPending(s: Flash, n: int, b: Bank, c: Cursors, x: int)
    requires BankOk(s, n, b, c) && c.rw % PAGES_PER_BLK == PAGES_PER_BLK - 1 && b.free != [] && x == b.free[0]
    requires Blank(s, Blk(n, x), 0) && Blk(n, x) in s.vcount && s.vcount[Blk(n, x)] == 0
    ensures RwPending(s, n, Apply(b, AllocRW), c.(rw := x * PAGES_PER_BLK))
  {
    hide Tidy, CursorOk;
    var b', c' := Apply(b, AllocRW), c.(rw := x * PAGES_PER_BLK);
    StepApart(b, AllocRW);
    ApartFacts(b);
    assert x in b.free && x in All(b);
    forall y | y in b'.data
      ensures BlockOk(s, Blk(n, y), c'.sw, c'.rw, c'.jn, c'.gc)
    {
      assert BlockOk(s, Blk(n, y), c.sw, c.rw, c.jn, c.gc);
    }
    forall y | y in All(b')
      ensures 0 <= y < NO_BLOCK
    {
      assert y in All(b);
    }
  }

  // Erasing a free block, or counting it zero, touches nothing else.
  lemma FreeTouched(s0: Flash, s: Flash, n: int, b: Bank, c: Cursors, x: int)
    requires BankOk(s0, n, b, c) && x in b.free && Shaped(s) && Placed(s)
    requires s.table == s0.table && s.bits == s0.bits && Outside(s0, s, {Blk(n, x)})
    requires Blank(s, Blk(n, x), 0) && Blk(n, x) in s.vcount && s.vcount[Blk(n, x)] == 0
    ensures BankOk(s, n, b, c)
  {
    hide Tidy, Legible, Blank, FreeBlk, Outside;
    ApartFacts(b);
    assert x in All(b);
    OtherSame(s0, s, Blk(n, x));
    CountedZero(s0, s, Blk(n, x));
    assert forall y :: y in b.data ==> BlockOk(s0, Blk(n, y), c.sw, c.rw, c.jn, c.gc);
  }

  lemma CountedZero(s0: Flash, s: Flash, x: Blk)
    requires FreeBlk(s0, x) && s.table == s0.table && x in s.vcount && s.vcount[x] == 0
    ensures FreeBlk(s, x)
  {
  }

  lemma OtherSame(s0: Flash, s: Flash, x: Blk)
    requires Shaped(s0) && Placed(s0) && Shaped(s) && Placed(s)
    requires s.table == s0.table && s.bits == s0.bits && Outside(s0, s, {x})
    ensures forall y :: y != x && Tidy(s0, y) ==> Tidy(s, y)
    ensures forall y, m :: y != x && Legible(s0, y, m) ==> Legible(s, y, m)
    ensures forall y, m :: y != x && Blank(s0, y, m) ==> Blank(s, y, m)
    ensures forall y :: y != x && FreeBlk(s0, y) ==> FreeBlk(s, y)
    ensures forall y :: y != x && y in s0.vcount ==> y in s.vcount && s.vcount[y] == s0.vcount[y]
  {
  }

  // ------------------------------------------------ allocations

  lemma TrimApart(b: Bank)
    requires Apart(b)
    ensures Apart(Trim(b))
  {
    assert forall x :: Places(Trim(b), x) <= Places(b, x);
  }

  lemma TrimOk(s: Flash, n: int, b: Bank, c: Cursors)
    requires BankOk(s, n, b, c)
    ensures BankOk(s, n, Trim(b), c)
  {
    hide Legible, Blank, Tidy, FreeBlk, Places, Shaped, Placed;
    TrimApart(b);
    TrimAll(b);
  }

  lemma TrimAll(b: Bank)
    ensures forall x :: x in All(b) <==> x in All(Trim(b)) || x in b.victims
  {
  }

  lemma TrimPending(s: Flash, n: int, b: Bank, c: Cursors)
    requires Apart(b) && forall x :: x in b.victims ==> 0 <= x < NO_BLOCK
    ensures Pending(s, n, Trim(b), c) ==> Pending(s, n, b, c)
    ensures RwPending(s, n, Trim(b), c) ==> RwPending(s, n, b, c)
  {
    hide Legible, Blank, Tidy, FreeBlk, Places, Shaped, Placed, RwOk;
    TrimAll(b);
  }

  // The live pages of the block carry their address and are counted.
  ghost predicate Settled(s: Flash, b: Blk)
    requires Shaped(s) && Placed(s)
  {
    && Carried(s, b) && b in s.vcount
    && (s.vcount[b] == |LiveIn(s.table, b)| || (s.vcount[b] == VC_MAX && LiveIn(s.table, b) == {}))
  }

  lemma FreeSettled(s: Flash, b: Blk)
    requires Shaped(s) && Placed(s) && FreeBlk(s, b)
    ensures Settled(s, b)
  {
  }

  // No block is lost, and at most one joins the log list.
  ghost predicate Reshuffled(b: Bank, b': Bank, x: int) {
    && (forall y :: Places(b', y) == Places(b, y))
    && (b'.rw == b.rw || b'.rw == b.rw + [x])
    && b' == b.(free := b'.free, data := b'.data, rw := b'.rw, gc := b'.gc)
  }

  // Blocks the allocators may touch are settled afterwards.
  lemma AllSettled(s: Flash, n: int, b: Bank, b': Bank, x: int)
    requires Shaped(s) && Placed(s) && Apart(b) && Reshuffled(b, b', x) && ListsOk(s, n, b')
    requires forall y :: y in b'.data ==> Tidy(s, Blk(n, y))
    requires b'.rw != b.rw ==> FreeBlk(s, Blk(n, x))
    ensures forall y :: y in Reachable(n, b) ==> Settled(s, y)
  {
    hide Tidy, FreeBlk, Settled;
    ApartFacts(b);
    forall y | y in b.data + b.gc + b.free
      ensures Settled(s, Blk(n, y))
    {
      assert Places(b', y) == Places(b, y) >= 1 by { hide Apart; }
      assert y in b'.data + b'.gc + b'.free + b'.rw;
      if y in b'.data {
        assert Tidy(s, Blk(n, y));
        TidySettled(s, Blk(n, y));
      } else {
        FreeSettled(s, Blk(n, y));
      }
    }
  }

  lemma TidySettled(s: Flash, b: Blk)
    requires Shaped(s) && Placed(s) && Tidy(s, b)
    ensures Settled(s, b)
  {
  }

  lemma ReshuffledAll(b: Bank, b': Bank, x: int)
    requires Reshuffled(b, b', x) && Apart(b)
    ensures Apart(b') && forall y :: y in All(b') ==> y in All(b)
  {
    forall y | y in All(b')
      ensures y in All(b)
    {
      assert Places(b', y) == Places(b, y) <= 1;
      assert y in b'.free || y in b'.data || y in b'.rw || y in b'.victims || y in b'.gc;
    }
    forall y
      ensures Places(b', y) <= 1
    {
      assert Places(b', y) == Places(b, y) <= 1;
    }
  }

  // A step of the bank's lists loses no block.
  lemma DataReshuffled(b: Bank, b': Bank, vt: int)
    requires || b' == b || (b.free != [] && b' == Apply(b, AllocData))
             || (vt in b.data && |b.gc| == 1 && b' == Apply(b, Collect(vt)))
    ensures Reshuffled(b, b', 0) && b'.rw == b.rw
  {
    forall y
      ensures Places(b', y) == Places(b, y)
    {
      if b.free != [] { StepConserves(b, AllocData, y); }
      if vt in b.data && |b.gc| == 1 { StepConserves(b, Collect(vt), y); }
    }
  }

  // ------------------------------------------------ when an allocation is safe

  // Some block that may be collected has no more than `most` live pages.
  predicate HasVictim(s: Flash, n: int, b: Bank, c: Cursors, most: int) {
    exists x :: x in b.data && !Skipped(x, c.sw, c.rw, c.jn, c.gc) && Blk(n, x) in s.vcount
                && s.vcount[Blk(n, x)] <= most
  }

  // The valid counts of the blocks of a list.
  function Counts(s: Flash, n: int, list: seq<int>): map<int, int> {
    map x | x in list && Blk(n, x) in s.vcount :: s.vcount[Blk(n, x)]
  }

  // What inter_GC would leave.
  function EndOf(s: Flash, n: int, b: Bank, c: Cursors): Ending {
    var counts := Counts(s, n, b.data);
    if Countable(counts, b.data, c.sw, EmptyOf(b))
    then Freed(counts, b.data, c.sw, EmptyOf(b), c.rw, c.jn, c.gc)
    else Ending(VC_MAX, c.sw, EmptyOf(b), b.data)
  }

  // The block inter_GC would free; VC_MAX if it cannot.
  function ToFree(s: Flash, n: int, b: Bank, c: Cursors): int {
    EndOf(s, n, b, c).block
  }

  // GC_BLK
  function EmptyOf(b: Bank): int {
    if b.gc == [] then VC_MAX else b.gc[0]
  }

  // Whether inter_GC has a place for what it copies: without an empty block, the
  // pages of the first victim must fit behind the write pointer.
  predicate Served(s: Flash, n: int, b: Bank, c: Cursors) {
    var counts := Counts(s, n, b.data);
    var vt := Choice(counts, b.data, c.sw, c.rw, c.jn, c.gc);
    b.gc == [] && vt != VC_MAX && counts[vt] <= MOST_LIVE ==> !Opens(c.sw, counts[vt])
  }

  lemma TrimToFree(s: Flash, n: int, b: Bank, c: Cursors)
    ensures EndOf(s, n, Trim(b), c) == EndOf(s, n, b, c) && Leaking(s, n, Trim(b), c) == Leaking(s, n, b, c)
    ensures ToFree(s, n, b, c) != VC_MAX ==> Served(s, n, Trim(b), c) && Served(s, n, b, c)
  {
  }

  lemma LawCountable(s: Flash, n: int, b: Bank, c: Cursors)
    requires BankOk(s, n, b, c)
    ensures Countable(Counts(s, n, b.data), b.data, c.sw, EmptyOf(b))
    ensures b.gc != [] ==> EmptyOf(b) != VC_MAX
    ensures c.sw / PAGES_PER_BLK == EmptyOf(b) <==> c.sw / PAGES_PER_BLK in b.gc
    ensures forall x :: x in b.data ==> Blk(n, x) in s.vcount
  {
    hide Legible, Blank, Places;
    ApartFacts(b);
    assert b.gc != [] ==> b.gc[0] in All(b);
    forall x | x in b.data
      ensures 0 <= x < VC_MAX && Blk(n, x) in s.vcount && 0 <= s.vcount[Blk(n, x)]
    {
      assert x in All(b) && BlockOk(s, Blk(n, x), c.sw, c.rw, c.jn, c.gc);
    }
  }

  // After a round each block of the data list counts what the forecast says.
  lemma RoundCounts(u: Run, s: Flash, n: int, b: Bank, c: Cursors, vt: int, count: int)
    requires Departed(u, n, b, c, vt) && Dealt(u, s, count) && 0 <= count && Unreached(u, s, b, c, count)
    requires |b.gc| <= 1
    ensures var list := RoundOf(b, vt, c.sw, count).data;
      Counts(Returned(s, u.vt), n, list) == Recounted(Counts(u.s0, n, b.data), list, c.sw, EmptyOf(b), count)
  {
    hide BankOk;
    LawCountable(u.s0, n, b, c);
    WithoutFacts(b.data, vt);
    assert Opens(c.sw, count) ==> count > Fitting(u.r, count);
    var list, s' := RoundOf(b, vt, c.sw, count).data, Returned(s, u.vt);
    forall x | x in list
      ensures Blk(n, x) in s'.vcount
      ensures s'.vcount[Blk(n, x)] == Recounted(Counts(u.s0, n, b.data), list, c.sw, EmptyOf(b), count)[x]
    {
    }
  }

  // get_vt_vblock returns the victim forecast.
  lemma ChosenFirst(s: Flash, n: int, b: Bank, c: Cursors, vt: int)
    requires BankOk(s, n, b, c) && |b.gc| <= 1 && vt in b.data && Blk(n, vt) in s.vcount
    requires FirstLeast(s.vcount, n, b.data, c.sw, c.rw, c.jn, c.gc, vt)
    ensures Choice(Counts(s, n, b.data), b.data, c.sw, c.rw, c.jn, c.gc) == vt
    ensures vt in Counts(s, n, b.data) && Counts(s, n, b.data)[vt] == s.vcount[Blk(n, vt)]
  {
    hide BankOk;
    LawCountable(s, n, b, c);
    var i: nat :| i < |b.data| && b.data[i] == vt && LeastAt(s.vcount, n, b.data, c.sw, c.rw, c.jn, c.gc, i);
    ChoiceFirst(Counts(s, n, b.data), b.data, c.sw, c.rw, c.jn, c.gc, i);
  }

  // What the bank's next round makes of the forecast.
  lemma RoundOutcome(s: Flash, s': Flash, n: int, b: Bank, c: Cursors, vt: int, count: int)
    requires BankOk(s, n, b, c) && |b.gc| <= 1 && vt in b.data && Blk(n, vt) in s.vcount
    requires FirstLeast(s.vcount, n, b.data, c.sw, c.rw, c.jn, c.gc, vt) && count == s.vcount[Blk(n, vt)] <= MOST_LIVE
    requires b.gc == [] ==> !Opens(c.sw, count)
    requires var list := RoundOf(b, vt, c.sw, count).data;
      Counts(s', n, list) == Recounted(Counts(s, n, b.data), list, c.sw, EmptyOf(b), count)
    ensures var b', c' := RoundOf(b, vt, c.sw, count), c.(sw := CursorAt(c.sw, EmptyOf(b), count));
      EndOf(s, n, b, c) ==
        if b'.gc == [vt] then EndOf(s', n, b', c') else Ending(vt, c'.sw, EmptyOf(b'), b'.data)
  {
    hide BankOk, Recounted, Counts, FirstLeast;
    LawCountable(s, n, b, c);
    var counts, gc := Counts(s, n, b.data), EmptyOf(b);
    ChosenFirst(s, n, b, c, vt);
    if c.sw / PAGES_PER_BLK == gc || Opens(c.sw, count) {
      RoundCountable(counts, b.data, vt, c.sw, gc);
      assert RoundOf(b, vt, c.sw, count).data == DataAfter(b.data, vt, c.sw, gc, count);
    }
  }

  // Without a victim nothing is freed.
  lemma NothingFreed(s: Flash, n: int, b: Bank, c: Cursors)
    requires BankOk(s, n, b, c) && !HasVictim(s, n, b, c, MOST_LIVE)
    ensures EndOf(s, n, b, c) == Ending(VC_MAX, c.sw, EmptyOf(b), b.data)
  {
    hide BankOk;
    if Countable(Counts(s, n, b.data), b.data, c.sw, EmptyOf(b)) {
      ChoiceLeast(Counts(s, n, b.data), b.data, c.sw, c.rw, c.jn, c.gc);
    }
  }

  // inter_GC would lose the empty block.
  predicate Leaking(s: Flash, n: int, b: Bank, c: Cursors) {
    c.sw / PAGES_PER_BLK in b.gc && HasVictim(s, n, b, c, 0)
  }

  // The next superpage is an erased one: the block just filled is not taken
  // again, the first page has not been written, and a block can be had.
  predicate Allottable(s: Flash, n: int, b: Bank, c: Cursors, kind: WriteType) {
    match kind
    case SW =>
      if c.sw % PAGES_PER_BLK != PAGES_PER_BLK - 1 then
        c.startedSW || (Blk(n, c.sw / PAGES_PER_BLK), c.sw % PAGES_PER_BLK) !in s.nand
      else if b.free != [] then b.free[0] != c.sw / PAGES_PER_BLK
      else b.gc != [] && HasVictim(s, n, b, c, MOST_LIVE)
    case RW =>
      c.rw % PAGES_PER_BLK == PAGES_PER_BLK - 1 ==>
        if b.free != [] then b.free[0] != c.rw / PAGES_PER_BLK
        else ToFree(s, n, b, c) != VC_MAX && ToFree(s, n, b, c) != c.rw / PAGES_PER_BLK && !Leaking(s, n, b, c)
    case JN => false
  }

  // The superpage a bank hands out next, and what becomes of its lists and
  // cursors: the page behind the cursor, the first page of the next free block,
  // the one behind the copies of garbage_collection, or the first page of the
  // block inter_GC frees.
  ghost predicate Assigned(s: Flash, n: int, b: Bank, c: Cursors, kind: WriteType, vpn: int, b': Bank, c': Cursors) {
    match kind
    case SW =>
      && c'.sw == vpn && c'.rw == c.rw && c'.jn == c.jn && c'.gc == c.gc && c'.startedRW == c.startedRW
      && (c'.startedSW <==> c.startedSW || c.sw % PAGES_PER_BLK != PAGES_PER_BLK - 1
                            || (b.free != [] && b.free[0] == c.sw / PAGES_PER_BLK))
      && (if c.sw % PAGES_PER_BLK != PAGES_PER_BLK - 1 then
            vpn == (if c.startedSW then c.sw + 1 else c.sw) && b' == b
          else if b.free != [] then vpn == b.free[0] * PAGES_PER_BLK && b' == Apply(b, AllocData)
          else
            exists v :: FirstLeast(s.vcount, n, b.data, c.sw, c.rw, c.jn, c.gc, v) && v in b.data &&
                        Blk(n, v) in s.vcount && |b.gc| == 1 && b' == Apply(b, Collect(v)) &&
                        vpn == b.gc[0] * PAGES_PER_BLK + (s.vcount[Blk(n, v)] + SLOTS - 1) / SLOTS)
    case RW =>
      && c'.rw == vpn && c'.jn == c.jn && c'.gc == c.gc && c'.startedSW == c.startedSW && c'.startedRW
      && (if c.rw % PAGES_PER_BLK != PAGES_PER_BLK - 1 then
            vpn == (if c.startedRW then c.rw + 1 else c.rw) && c'.sw == c.sw && b' == b
          else if b.free != [] then
            vpn == b.free[0] * PAGES_PER_BLK && c'.sw == c.sw && b' == Apply(b, AllocRW)
          else
            var e := EndOf(s, n, b, c);
            && vpn == e.block * PAGES_PER_BLK && c'.sw == e.cursor
            && b' == b.(free := [], data := e.list, rw := b.rw + [e.block],
                        gc := if e.gc == VC_MAX then [] else [e.gc]))
    case JN => false
  }

  lemma DataAssigned(s: Flash, n: int, b: Bank, c: Cursors, vpn: int, b': Bank, c': Cursors, vt: int)
    requires c'.sw == vpn && c'.rw == c.rw && c'.jn == c.jn && c'.gc == c.gc && c'.startedRW == c.startedRW
    requires c'.startedSW <==> c.startedSW || c.sw % PAGES_PER_BLK != PAGES_PER_BLK - 1
                               || (b.free != [] && b.free[0] == c.sw / PAGES_PER_BLK)
    requires c.sw % PAGES_PER_BLK != PAGES_PER_BLK - 1 ==> vpn == (if c.startedSW then c.sw + 1 else c.sw) && b' == b
    requires c.sw % PAGES_PER_BLK == PAGES_PER_BLK - 1 && b.free != [] ==>
      vpn == b.free[0] * PAGES_PER_BLK && b' == Apply(b, AllocData)
    requires c.sw % PAGES_PER_BLK == PAGES_PER_BLK - 1 && b.free == [] ==>
      && FirstLeast(s.vcount, n, b.data, c.sw, c.rw, c.jn, c.gc, vt) && vt in b.data && Blk(n, vt) in s.vcount
      && |b.gc| == 1 && b' == Apply(b, Collect(vt))
      && vpn == b.gc[0] * PAGES_PER_BLK + (s.vcount[Blk(n, vt)] + SLOTS - 1) / SLOTS
    ensures Assigned(s, n, b, c, SW, vpn, b', c')
  {
  }

  lemma LogAssigned(s: Flash, n: int, b: Bank, c: Cursors, vpn: int, b': Bank, c': Cursors, e: Ending)
    requires e == EndOf(s, n, Trim(b), c) && c'.rw == vpn && c'.jn == c.jn && c'.gc == c.gc
    requires c'.startedSW == c.startedSW && c'.startedRW
    requires if c.rw % PAGES_PER_BLK != PAGES_PER_BLK - 1 then
               vpn == (if c.startedRW then c.rw + 1 else c.rw) && b' == b && c'.sw == c.sw
             else if b.free != [] then
               vpn == b.free[0] * PAGES_PER_BLK && b' == Apply(b, AllocRW) && c'.sw == c.sw
             else
               && vpn == e.block * PAGES_PER_BLK && c'.sw == e.cursor
               && b' == b.(free := [], data := e.list, rw := b.rw + [e.block],
                           gc := if e.gc == VC_MAX then [] else [e.gc])
    ensures Assigned(s, n, b, c, RW, vpn, b', c')
  {
    hide EndOf;
    TrimToFree(s, n, b, c);
  }

  lemma TrimAllottable(s: Flash, n: int, b: Bank, c: Cursors, kind: WriteType)
    ensures Allottable(s, n, Trim(b), c, kind) == Allottable(s, n, b, c, kind)
  {
    TrimToFree(s, n, b, c);
  }

  // ------------------------------------------------ gentle changes

  // A change that leaves the bank's blocks, `x` apart, as legible, as blank, as
  // tidy and as free as they are.
  ghost predicate Gentle(s: Flash, s': Flash, n: int, b: Bank, x: set<Blk>) {
    && Shaped(s) && Placed(s) && Shaped(s') && Placed(s') && |s'.table| == |s.table|
    && (forall y: Blk, m :: y.bank == n && y !in x && Legible(s, y, m) ==> Legible(s', y, m))
    && (forall y: Blk, m :: y.bank == n && y !in x && Blank(s, y, m) ==> Blank(s', y, m))
    && (forall y :: y in b.data && Blk(n, y) !in x && Tidy(s, Blk(n, y)) ==> Tidy(s', Blk(n, y)))
    && (forall y :: y in b.free + b.gc && Blk(n, y) !in x && FreeBlk(s, Blk(n, y)) ==> FreeBlk(s', Blk(n, y)))
    && (forall y :: y in b.rw && Blk(n, y) !in x && Blk(n, y) in s.vcount && 0 <= s.vcount[Blk(n, y)] <= BLK_LPAGES ==>
          Blk(n, y) in s'.vcount && 0 <= s'.vcount[Blk(n, y)] <= BLK_LPAGES)
  }

  lemma GentleBank(s: Flash, s': Flash, n: int, b: Bank, c: Cursors)
    requires BankOk(s, n, b, c) && Gentle(s, s', n, b, {})
    ensures BankOk(s', n, b, c)
  {
    hide Legible, Blank, Tidy, FreeBlk, Places, Shaped, Placed;
    forall y | y in b.data
      ensures BlockOk(s', Blk(n, y), c.sw, c.rw, c.jn, c.gc)
    {
      assert BlockOk(s, Blk(n, y), c.sw, c.rw, c.jn, c.gc);
    }
  }

  lemma LegibleLess(s: Flash, s': Flash)
    requires s'.nand == s.nand && s'.bits <= s.bits
    ensures forall b, m :: Legible(s, b, m) ==> Legible(s', b, m)
    ensures forall b, m :: Blank(s, b, m) ==> Blank(s', b, m)
  {
  }

  // A block of the log list in order joins the data list.
  lemma MovedBank(s: Flash, n: int, b: Bank, c: Cursors, x: int)
    requires BankOk(s, n, b, c) && x in b.rw && !Ongoing(c.rw, x) && Tidy(s, Blk(n, x))
    ensures BankOk(s, n, Apply(b, RemapDone(x)), c)
    ensures forall y :: y in All(Apply(b, RemapDone(x))) ==> y in All(b)
  {
    hide Tidy, Legible, Blank, FreeBlk, Places;
    var b' := Apply(b, RemapDone(x));
    StepApart(b, RemapDone(x));
    ApartFacts(b);
    WithoutFacts(b.rw, x);
    forall y | y in b'.data
      ensures BlockOk(s, Blk(n, y), c.sw, c.rw, c.jn, c.gc)
    {
      if y != x { assert BlockOk(s, Blk(n, y), c.sw, c.rw, c.jn, c.gc); }
    }
    forall y | y in All(b')
      ensures y in All(b)
    {
    }
  }

  lemma PendingDone(s: Flash, s': Flash, n: int, b: Bank, c: Cursors)
    requires Pending(s, n, b, c)
    requires var x, p := Blk(n, c.sw / PAGES_PER_BLK), c.sw % PAGES_PER_BLK;
      Gentle(s, s', n, b, {x}) && Tidy(s', x) && Legible(s', x, p) && Blank(s', x, p + 1)
    ensures BankOk(s', n, b, c)
  {
    hide Tidy, Legible, Blank, FreeBlk, Places, Shaped, Placed;
    ApartFacts(b);
    var x := Blk(n, c.sw / PAGES_PER_BLK);
    assert x.no in All(b);
    forall y | y in b.data
      ensures BlockOk(s', Blk(n, y), c.sw, c.rw, c.jn, c.gc)
    {
      if y != x.no {
        assert BlockOk(s, Blk(n, y), c.sw, c.rw, c.jn, c.gc);
      } else if c.sw % PAGES_PER_BLK == PAGES_PER_BLK - 1 {
        LastPage(s', x);
      }
    }
  }

  lemma LastPage(s: Flash, x: Blk)
    requires Legible(s, x, PAGES_PER_BLK - 1)
    ensures Legible(s, x, PAGES_PER_BLK)
  {
  }

  lemma RwPendingDone(s: Flash, s': Flash, n: int, b: Bank, c: Cursors)
    requires RwPending(s, n, b, c)
    requires var x, p := Blk(n, c.rw / PAGES_PER_BLK), c.rw % PAGES_PER_BLK;
      && Gentle(s, s', n, b, {x}) && Legible(s', x, p) && Blank(s', x, p + 1)
      && x in s'.vcount && 0 <= s'.vcount[x] <= BLK_LPAGES
    ensures BankOk(s', n, b, c)
  {
    hide Tidy, Legible, Blank, FreeBlk, Places, Shaped, Placed;
    ApartFacts(b);
    var x := Blk(n, c.rw / PAGES_PER_BLK);
    assert x.no in b.rw && x.no !in b.data;
    forall y | y in b.data
      ensures BlockOk(s', Blk(n, y), c.sw, c.rw, c.jn, c.gc)
    {
      assert BlockOk(s, Blk(n, y), c.sw, c.rw, c.jn, c.gc);
    }
    if c.rw % PAGES_PER_BLK == PAGES_PER_BLK - 1 { LastPage(s', x); }
  }

  // ------------------------------------------------ garbage_collection

  // The victim's bits say nothing once it is erased, the others what they said.
  lemma ReturnedExact(u: Run, s: Flash, k: int)
    requires After(u, s, k) && LiveIn(s.table, u.vt) == {} && Shaped(Returned(s, u.vt))
    ensures forall b :: Exact(u.s0, b) ==> Exact(Returned(s, u.vt), b)
  {
    var s1 := s.(nand := Wiped(s.nand, u.vt));
    WipedOk(s, u.vt, s1);
    ExactSame(s1, Returned(s, u.vt));
    hide Exact;
    forall b | Exact(u.s0, b)
      ensures Exact(Returned(s, u.vt), b)
    {
    }
  }

  // All copies go to the empty block, which has just been opened.
  ghost predicate Cleared(u: Run, s0: Flash, n: int, b: Bank, c: Cursors, vt: int) {
    && |b.gc| == 1 && vt in b.data && !Skipped(vt, c.sw, c.rw, c.jn, c.gc) && BankOk(s0, n, b, c)
    && c.sw % PAGES_PER_BLK == PAGES_PER_BLK - 1
    && u.vt == Blk(n, vt) && u.r == PAGES_PER_BLK - 1 && u.gc == Blk(n, b.gc[0])
    && u.tracked == (set x | x in b.data && x != vt :: Blk(n, x)) && u.s0 == s0.(vcount := s0.vcount[u.gc := 0])
  }

  lemma ClearedPending(u: Run, s0: Flash, s: Flash, n: int, b: Bank, c: Cursors, vt: int, k: int)
    requires Cleared(u, s0, n, b, c, vt) && After(u, s, k) && LiveIn(s.table, u.vt) == {} && 0 <= k < PAGES_PER_BLK
    requires Opened(u, s, k)
    ensures var s', b' := Returned(s, u.vt), Apply(b, Collect(vt));
      && Pending(s', n, b', c.(sw := b.gc[0] * PAGES_PER_BLK + k)) && MeaningKept(s0, s', Region(n, b))
      && s'.vcount[u.gc] == |LiveIn(s0.table, u.vt)| && u.gc in s'.vcount
  {
    hide Exact, Tidy, Carried, Legible, Blank, After, LogOk, Opened, LiveIn, SameMeaning, Places, CursorOk, FreeBlk;
    var s', b', c' := Returned(s, u.vt), Apply(b, Collect(vt)), c.(sw := b.gc[0] * PAGES_PER_BLK + k);
    ApartFacts(b);
    assert b.gc == [b.gc[0]] && b.gc[0] in All(b);
    StepApart(b, Collect(vt));
    WithoutFacts(b.data, vt);
    assert Blank(u.s0, u.gc, 0) by { assert Blank(s0, u.gc, 0); BlankSame(s0, u.s0); }
    GcResult(u, s0, s, k);
    ExactSame(s0, u.s0);
    ReturnedExact(u, s, k);
    ClearedLists(u, s0, s, n, b, c, vt, k);
    ClearedBlocks(u, s0, s, n, b, c, vt, k);
    ClearedCursor(u, s0, s, n, b, c, vt, k);
  }

  lemma ClearedLists(u: Run, s0: Flash, s: Flash, n: int, b: Bank, c: Cursors, vt: int, k: int)
    requires Cleared(u, s0, n, b, c, vt) && After(u, s, k) && Collected(u, s0, Returned(s, u.vt), k)
    ensures Outside(s0, Returned(s, u.vt), Region(n, b))
    ensures ListsOk(Returned(s, u.vt), n, Apply(b, Collect(vt))) && LogOk(Returned(s, u.vt), n, b.rw, c.rw, c.startedRW)
  {
    hide Tidy, Carried, Legible, LogOk, SameMeaning, Places, CursorOk, Kept, FreeBlk, DataOk, Outside, Blank,
         After, LiveIn;
    var s', b' := Returned(s, u.vt), Apply(b, Collect(vt));
    ApartFacts(b);
    assert b.gc == [b.gc[0]];
    StepApart(b, Collect(vt));
    WithoutFacts(b.data, vt);
    RoundOutside(u, s, k, Region(n, b));
    CountOutside(u.s0, s0, s', u.gc, Region(n, b));
    Erased(s', u.vt);
    RwOutside(s0, s', n, b, c);
    forall x | x in b.free
      ensures FreeBlk(s', Blk(n, x))
    {
      FreeOutside(s0, s', Region(n, b), Blk(n, x));
    }
    forall x | x in All(b')
      ensures 0 <= x < NO_BLOCK
    {
      assert x in All(b);
    }
  }

  lemma Erased(s: Flash, b: Blk)
    requires LiveIn(s.table, b) == {} && Blank(s, b, 0) && b in s.vcount && s.vcount[b] == VC_MAX
    ensures FreeBlk(s, b)
  {
  }

  lemma CountOutside(s1: Flash, s0: Flash, s: Flash, g: Blk, touched: set<Blk>)
    requires s1 == s0.(vcount := s0.vcount[g := 0]) && g in touched && Outside(s1, s, touched)
    ensures Outside(s0, s, touched)
  {
  }

  lemma ClearedBlocks(u: Run, s0: Flash, s: Flash, n: int, b: Bank, c: Cursors, vt: int, k: int)
    requires Cleared(u, s0, n, b, c, vt) && Collected(u, s0, Returned(s, u.vt), k) && 0 <= k < PAGES_PER_BLK
    requires NoDup(b.data) && b.gc[0] !in b.data
    ensures forall y :: y in Without(b.data, vt) ==>
      y != b.gc[0] && BlockOk(Returned(s, u.vt), Blk(n, y), b.gc[0] * PAGES_PER_BLK + k, c.rw, c.jn, c.gc)
  {
    hide Tidy, Legible, LogOk, SameMeaning, Places, CursorOk, ListsOk, Blank;
    WithoutFacts(b.data, vt);
    forall y | y in Without(b.data, vt)
      ensures BlockOk(Returned(s, u.vt), Blk(n, y), b.gc[0] * PAGES_PER_BLK + k, c.rw, c.jn, c.gc)
    {
      assert BlockOk(s0, Blk(n, y), c.sw, c.rw, c.jn, c.gc) && Blk(n, y) in u.tracked && Blk(n, y) != u.vt;
    }
  }

  lemma ClearedCursor(u: Run, s0: Flash, s: Flash, n: int, b: Bank, c: Cursors, vt: int, k: int)
    requires Cleared(u, s0, n, b, c, vt) && After(u, s, k) && Collected(u, s0, Returned(s, u.vt), k)
    requires 0 <= k < PAGES_PER_BLK
    requires NoDup(b.data) && b.gc[0] !in b.data
    ensures Tidy(Returned(s, u.vt), u.gc) && Legible(Returned(s, u.vt), u.gc, k - 1)
    ensures Blank(Returned(s, u.vt), u.gc, k)
    ensures CursorOk(Returned(s, u.vt), n, Apply(b, Collect(vt)).data, c.gc) && !Ongoing(c.gc, b.gc[0])
    ensures u.gc in Returned(s, u.vt).vcount
  {
    hide LogOk, SameMeaning, Places, ListsOk, Carried;
    var s', x := Returned(s, u.vt), Blk(n, c.gc / PAGES_PER_BLK);
    WithoutFacts(b.data, vt);
    if c.gc % PAGES_PER_BLK != PAGES_PER_BLK - 1 {
      assert Ongoing(c.gc, x.no);
      assert Legible(s0, x, c.gc % PAGES_PER_BLK) && x != u.vt && x != u.gc;
    }
  }

  lemma BlankSame(s: Flash, s': Flash)
    requires s'.nand == s.nand
    ensures forall b, p :: Blank(s, b, p) ==> Blank(s', b, p)
  {
  }

  lemma CountTidy(s: Flash, g: Blk)
    requires Shaped(s) && Placed(s)
    ensures var s' := s.(vcount := s.vcount[g := 0]);
      && Shaped(s') && Placed(s') && (forall b :: b != g && Tidy(s, b) ==> Tidy(s', b))
      && (forall b, m :: Legible(s, b, m) ==> Legible(s', b, m)) && (forall b, p :: Blank(s, b, p) ==> Blank(s', b, p))
  {
  }

  // How much room a round leaves.
  lemma RoundRoom(u: Run, s: Flash, n: int, b: Bank, c: Cursors, vt: int, k: int, count: int)
    requires Departed(u, n, b, c, vt) && After(u, s, k) && LiveIn(s.table, u.vt) == {}
    requires count == |LiveIn(u.s0.table, u.vt)| <= MOST_LIVE && k == (count + SLOTS - 1) / SLOTS
    requires Unreached(u, s, b, c, count)
    ensures Opens(c.sw, count) ==>
      forall m :: Roomy(u.s0.table, n, b.data, m) ==> Roomy(s.table, n, RoundOf(b, vt, c.sw, count).data, m)
    ensures count == 0 && !Opens(c.sw, count) ==>
      Roomy(u.s0.table, n, b.data, 1) ==> Roomy(s.table, n, RoundOf(b, vt, c.sw, count).data, 0)
  {
    hide Roomy, Tidy, Legible, Blank, SameMeaning, Kept, Places;
    EmptyBlock(u, n, b, c, vt);
    assert Without(b.data, vt) + [] == Without(b.data, vt);
    if Opens(c.sw, count) {
      assert LiveIn(u.s0.table, u.gc) == {} by { assert Blank(u.s0, u.gc, 0); NoneLive(u.s0, u.gc); }
      forall m | Roomy(u.s0.table, n, b.data, m)
        ensures Roomy(s.table, n, RoundOf(b, vt, c.sw, count).data, m)
      {
        RoomKept(u, s.table, b.data, m);
      }
    } else if count == 0 && Roomy(u.s0.table, n, b.data, 1) {
      RoomLess(u.s0.table, s.table, n, b.data, vt);
    }
  }

  lemma SameSize(s0: Flash, s: Flash)
    requires Shaped(s0) && Placed(s0) && Shaped(s) && Placed(s) && SameMeaning(s0, s)
    ensures |s.table| == |s0.table|
  {
  }

  // One round of inter_GC keeps the law.
  lemma RoundLaw(u: Run, s: Flash, n: int, b: Bank, c: Cursors, vt: int, k: int, count: int)
    requires Departed(u, n, b, c, vt) && After(u, s, k) && LiveIn(s.table, u.vt) == {}
    requires 0 <= count <= MOST_LIVE && k == (count + SLOTS - 1) / SLOTS && Unreached(u, s, b, c, count)
    ensures var s' := Returned(s, u.vt);
      && BankOk(s', n, RoundOf(b, vt, c.sw, count), c.(sw := Cursor(u, k)))
      && MeaningKept(u.s0, s', Region(n, b))
    ensures RoundOf(b, vt, c.sw, count).data == ListAfter(u, b.data, k)
    ensures (Switched(u, k) <==> Opens(c.sw, count)) && vt !in b.gc
    ensures Cursor(u, k) / PAGES_PER_BLK == if Opens(c.sw, count) then b.gc[0] else c.sw / PAGES_PER_BLK
  {
    hide Tidy, Legible, SameMeaning, Places, Kept, Outside, LogOk, After, LiveIn, Blank, FreeBlk, BlockOk;
    RoundData(u, s, n, b, c, vt, k, count);
    RoundLists(u, s, n, b, c, vt, k, count);
    EmptyBlock(u, n, b, c, vt);
    SameSize(u.s0, Returned(s, u.vt));
    ReturnedExact(u, s, k);
  }

  // ------------------------------------------------ RSP_Open

  // The first `i` blocks have been taken off the full free list and erased; the
  // map blocks, the meta block and the empty block are marked erased.
  ghost predicate Taken(k: int, free: seq<int>, nand: map<(Blk, int), seq<Cell>>, vcount: map<Blk, int>,
                        nand0: map<(Blk, int), seq<Cell>>, vcount0: map<Blk, int>, n: nat, m: nat, i: nat) {
    && i <= n && free == Down(n, n)[i..]
    && nand == (map x | x in nand0 && !(x.0.bank == k && n - i <= x.0.no < n) :: nand0[x])
    && (forall x :: x in vcount <==> x in vcount0 || (x.bank == k && 0 <= x.no < n))
    && (forall x :: x in vcount && !(x.bank == k && 0 <= x.no < n) ==> vcount[x] == vcount0[x])
    && (forall x :: 0 <= x < n ==> vcount[Blk(k, x)] == if x >= n - i && x >= n - m - 2 then VC_MAX else 0)
  }

  // The lists and cursors of a bank with `n` blocks, `m` of them for map pages,
  // as RSP_Open leaves them, as far as collection uses them.
  function OpenLists(n: nat, m: nat): Bank
    requires m + 5 <= n
  {
    NOTHING.(free := AfterOpen(n, m).free, data := AfterOpen(n, m).data, rw := AfterOpen(n, m).rw,
      gc := AfterOpen(n, m).gc)
  }

  function OpenCursors(n: nat, m: nat): Cursors
    requires m + 5 <= n
  {
    var b := AfterOpen(n, m);
    Cursors(b.data[0] * PAGES_PER_BLK, b.rw[0] * PAGES_PER_BLK, b.jn[0] * PAGES_PER_BLK, VC_MAX, false, false)
  }

  lemma OpenOk(s: Flash, k: int, n: nat, m: nat)
    requires m + 5 <= n <= NO_BLOCK && Shaped(s) && |s.table| <= INVALID_LPN && s.bits == {}
    requires forall l :: 0 <= l < |s.table| ==> s.table[l] == Unmapped
    requires forall x :: 0 <= x < n ==> Blk(k, x) in s.vcount
    requires forall x :: 0 <= x < n - m - 2 ==> s.vcount[Blk(k, x)] == 0
    requires s.vcount[Blk(k, n - m - 2)] == VC_MAX
    requires forall x :: n - m - 5 <= x < n ==> Blank(s, Blk(k, x), 0)
    ensures BankOk(s, k, OpenLists(n, m), OpenCursors(n, m))
  {
    hide ListsOk;
    OpenListsOk(s, k, n, m);
    OpenBlocks(n, m);
    assert forall x :: LiveIn(s.table, x) == {};
  }

  lemma OpenListsOk(s: Flash, k: int, n: nat, m: nat)
    requires m + 5 <= n <= NO_BLOCK && Shaped(s) && s.bits == {}
    requires forall l :: 0 <= l < |s.table| ==> s.table[l] == Unmapped
    requires forall x :: 0 <= x < n ==> Blk(k, x) in s.vcount
    requires forall x :: 0 <= x < n - m - 2 ==> s.vcount[Blk(k, x)] == 0
    requires s.vcount[Blk(k, n - m - 2)] == VC_MAX
    requires forall x :: n - m - 5 <= x < n ==> Blank(s, Blk(k, x), 0)
    ensures ListsOk(s, k, OpenLists(n, m))
  {
    var b := OpenLists(n, m);
    OpenPartition(n, m);
    OpenBlocks(n, m);
    assert forall x :: Places(b, x) <= Places(AfterOpen(n, m), x);
    assert forall x :: LiveIn(s.table, x) == {};
  }

  // Of six blocks, the log block has been filled, emptied and freed.
  lemma Refilled(s: Flash)
    requires BankOk(s, 0, OpenLists(6, 0), OpenCursors(6, 0)) && s.table == []
    requires Blk(0, 2) in s.vcount && (s.vcount[Blk(0, 2)] == 0 || s.vcount[Blk(0, 2)] == VC_MAX)
    ensures OpenLists(6, 0).data == [3]
    ensures BankOk(s, 0, OpenLists(6, 0).(free := [2, 0], rw := []),
                   OpenCursors(6, 0).(rw := 2 * PAGES_PER_BLK + PAGES_PER_BLK - 1, startedRW := true))
  {
    var b, b', c' := OpenLists(6, 0), OpenLists(6, 0).(free := [2, 0], rw := []),
                     OpenCursors(6, 0).(rw := 2 * PAGES_PER_BLK + PAGES_PER_BLK - 1, startedRW := true);
    OpenBlocks(6, 0);
    assert b.free == [0] && b.rw == [2] && b.gc == [4];
    assert BlockOk(s, Blk(0, 3), OpenCursors(6, 0).sw, OpenCursors(6, 0).rw, OpenCursors(6, 0).jn, VC_MAX);
    assert LiveIn(s.table, Blk(0, 2)) == {};
    forall x
      ensures Places(b', x) <= 1
    {
    }
  }
}
