/** When a victim exists, and why it stays so: counting the live pages of the
    blocks in the data list (ATLWrapper.cpp:3020-3065). */
module GcSpace {
  import opened Layout
  import opened SetSizes
  import opened FlashState
  import opened GcModel

  // A victim leaves at least one superpage free.
  const MOST_LIVE: int := BLK_LPAGES - SLOTS

  function LiveInAll(t: seq<Place>, bank: int, list: seq<int>): set<int> {
    set l | 0 <= l < |t| && t[l].Nand? && t[l].blk.bank == bank && t[l].blk.no in list
  }

  // The block under a write cursor is skipped until its last page is taken.
  predicate Ongoing(cursor: int, block: int) {
    block == cursor / PAGES_PER_BLK && cursor % PAGES_PER_BLK != PAGES_PER_BLK - 1
  }

  predicate Skipped(block: int, c0: int, c1: int, c2: int, c3: int) {
    Ongoing(c0, block) || Ongoing(c1, block) || Ongoing(c2, block) || Ongoing(c3, block)
  }

  // That is, some cursor is on one of the block's pages but the last.
  lemma SkippedMeans(block: int, c0: int, c1: int, c2: int, c3: int)
    ensures Skipped(block, c0, c1, c2, c3) <==>
      exists c :: c in [c0, c1, c2, c3] && 0 <= c - block * PAGES_PER_BLK < PAGES_PER_BLK - 1
  {
    var cursors := [c0, c1, c2, c3];
    forall c
      ensures Ongoing(c, block) <==> 0 <= c - block * PAGES_PER_BLK < PAGES_PER_BLK - 1
    {
    }
    assert c0 in cursors && c1 in cursors && c2 in cursors && c3 in cursors;
  }

  // Fewer live pages than would fill all but four blocks, and `more` others,
  // beyond reclaiming.
  predicate Roomy(t: seq<Place>, bank: int, list: seq<int>, more: int) {
    |LiveInAll(t, bank, list)| < (MOST_LIVE + 1) * (|list| - 4 - more)
  }

  // If every block outside `e` were that full, there would be too many pages.
  lemma {:induction false} Crowded(t: seq<Place>, bank: int, list: seq<int>, e: set<int>)
    requires NoDup(list)
    requires forall b :: b in list && b !in e ==> |LiveIn(t, Blk(bank, b))| > MOST_LIVE
    ensures |LiveInAll(t, bank, list)| >= (MOST_LIVE + 1) * (|list| - |e|)
  {
    if list != [] {
      var rest, x := list[..|list| - 1], list[|list| - 1];
      assert list == rest + [x];
      forall i | 0 <= i < |rest|
        ensures rest[i] == list[i] != x
      {
      }
      AllOneMore(t, bank, rest, x);
      if x in e {
        Crowded(t, bank, rest, e - {x});
      } else {
        Crowded(t, bank, rest, e);
      }
    }
  }

  lemma AllOneMore(t: seq<Place>, bank: int, rest: seq<int>, x: int)
    requires x !in rest
    ensures |LiveInAll(t, bank, rest + [x])| == |LiveInAll(t, bank, rest)| + |LiveIn(t, Blk(bank, x))|
  {
    assert LiveInAll(t, bank, rest + [x]) == LiveInAll(t, bank, rest) + LiveIn(t, Blk(bank, x));
    assert LiveInAll(t, bank, rest) !! LiveIn(t, Blk(bank, x));
  }

  lemma VictimExists(t: seq<Place>, bank: int, list: seq<int>, c0: int, c1: int, c2: int, c3: int)
    requires NoDup(list) && Roomy(t, bank, list, 0)
    ensures exists b :: b in list && |LiveIn(t, Blk(bank, b))| <= MOST_LIVE && !Skipped(b, c0, c1, c2, c3)
  {
    var e := {c0 / PAGES_PER_BLK, c1 / PAGES_PER_BLK, c2 / PAGES_PER_BLK, c3 / PAGES_PER_BLK};
    FourAtMost(c0 / PAGES_PER_BLK, c1 / PAGES_PER_BLK, c2 / PAGES_PER_BLK, c3 / PAGES_PER_BLK);
    if forall b :: b in list && b !in e ==> |LiveIn(t, Blk(bank, b))| > MOST_LIVE {
      Crowded(t, bank, list, e);
    }
  }

  lemma FourAtMost(a: int, b: int, c: int, d: int)
    ensures |{a, b, c, d}| <= 4
  {
  }

  // ------------------------------------------------ lists of blocks

  function Without(s: seq<int>, x: int): seq<int> {
    if s == [] then [] else if s[0] == x then s[1..] else [s[0]] + Without(s[1..], x)
  }

  lemma {:induction false} WithoutFacts(s: seq<int>, x: int)
    requires NoDup(s) && x in s
    ensures |Without(s, x)| == |s| - 1 && NoDup(Without(s, x))
    ensures forall y :: y in Without(s, x) <==> y in s && y != x
  {
    var t := s[1..];
    assert s == [s[0]] + t;
    assert NoDup(t) && s[0] !in t;
    if s[0] == x {
    } else {
      WithoutFacts(t, x);
    }
  }

  // Collecting a victim without freeing a block leaves as much room.
  lemma RoomKept(u: Run, t: seq<Place>, list: seq<int>, more: int)
    requires NoDup(list) && u.vt.no in list && u.vt.bank == u.gc.bank && u.gc.no !in list
    requires Roomy(u.s0.table, u.vt.bank, list, more)
    requires |t| == |u.s0.table| && forall l :: 0 <= l < |t| && l !in LiveIn(u.s0.table, u.vt) ==> t[l] == u.s0.table[l]
    requires LiveIn(u.s0.table, u.gc) == {}
    ensures Roomy(t, u.vt.bank, Without(list, u.vt.no) + [u.gc.no], more)
  {
    var list' := Without(list, u.vt.no) + [u.gc.no];
    WithoutFacts(list, u.vt.no);
    var a, b := LiveInAll(u.s0.table, u.vt.bank, list), LiveInAll(t, u.vt.bank, list');
    forall l | l in b
      ensures l in a
    {
      if l !in LiveIn(u.s0.table, u.vt) {
        assert t[l] == u.s0.table[l] && l !in LiveIn(u.s0.table, u.gc);
      }
    }
    SubsetSize(b, a);
  }

  // ------------------------------------------------ one round of inter_GC

  // The block being written: its last page has been taken, or it is in the
  // data list and erased behind the cursor.
  ghost predicate CursorOk(s: Flash, bank: int, list: seq<int>, cursor: int) {
    && 0 <= cursor <= VC_MAX
    && (cursor % PAGES_PER_BLK != PAGES_PER_BLK - 1 ==>
          var b := Blk(bank, cursor / PAGES_PER_BLK);
          && b.no in list && Blank(s, b, cursor % PAGES_PER_BLK + 1)
          && Legible(s, b, cursor % PAGES_PER_BLK))
  }

  // The cursor after `k` superpages.
  ghost function Cursor(u: Run, k: int): int {
    if u.r + k < PAGES_PER_BLK then u.wb.no * PAGES_PER_BLK + u.r + k
      else u.gc.no * PAGES_PER_BLK + u.r + k - PAGES_PER_BLK
  }

  ghost predicate Switched(u: Run, k: int) {
    u.r + k >= PAGES_PER_BLK
  }

  // The pages written in this round, block by block.
  lemma WrittenPages(u: Run, s: Flash, k: int)
    requires After(u, s, k) && LiveIn(s.table, u.vt) == {} && k < PAGES_PER_BLK
    ensures forall p :: u.r < p <= u.r + k && p < PAGES_PER_BLK && u.wb != u.vt ==> (u.wb, p) in Returned(s, u.vt).nand
    ensures forall p :: 0 <= p <= u.r + k - PAGES_PER_BLK ==> (u.gc, p) in Returned(s, u.vt).nand
  {
    forall p | u.r < p <= u.r + k && p < PAGES_PER_BLK
      ensures (u.wb, p) in s.nand
    {
      assert DestBlk(u, p - u.r - 1) == u.wb && DestPage(u, p - u.r - 1) == p;
    }
    forall p | 0 <= p <= u.r + k - PAGES_PER_BLK
      ensures (u.gc, p) in s.nand
    {
      var j := p + PAGES_PER_BLK - 1 - u.r;
      assert DestBlk(u, j) == u.gc && DestPage(u, j) == p;
    }
  }

  lemma CursorAfter(u: Run, s: Flash, k: int, list: seq<int>, cursor: int)
    requires After(u, s, k) && LiveIn(s.table, u.vt) == {} && k < PAGES_PER_BLK
    requires NoDup(list) && u.vt.no in list && u.gc.no !in list
    requires u.wb.bank == u.gc.bank == u.vt.bank && 0 <= u.wb.no && 0 <= u.gc.no
    requires cursor == u.wb.no * PAGES_PER_BLK + u.r && CursorOk(u.s0, u.vt.bank, list, cursor)
    requires (u.r < PAGES_PER_BLK - 1 ==> u.wb != u.vt) && Blank(u.s0, u.gc, 0)
    requires Switched(u, k) ==> u.gc.no < NO_BLOCK
    ensures 0 <= Cursor(u, k) && Cursor(u, k) / PAGES_PER_BLK == (if Switched(u, k) then u.gc.no else u.wb.no)
    ensures CursorOk(Returned(s, u.vt), u.vt.bank, ListAfter(u, list, k), Cursor(u, k))
  {
    WithoutFacts(list, u.vt.no);
    WrittenPages(u, s, k);
    ReturnedOk(u, s, k);
    ReturnedBlocks(u, s, k);
    if u.r < PAGES_PER_BLK - 1 { assert Legible(Returned(s, u.vt), u.wb, u.r); }
    assert Blank(u.s0, u.gc, 0);
  }

  ghost function ListAfter(u: Run, list: seq<int>, k: int): seq<int> {
    if Switched(u, k) then Without(list, u.vt.no) + [u.gc.no] else Without(list, u.vt.no)
  }

  // A block of the data list, as the collectors and the cursors see it.
  ghost predicate BlockOk(s: Flash, b: Blk, c0: int, c1: int, c2: int, c3: int)
    requires Shaped(s) && Placed(s)
  {
    Tidy(s, b) && (Skipped(b.no, c0, c1, c2, c3) || Legible(s, b, PAGES_PER_BLK))
  }

  lemma BlocksAfter(u: Run, s: Flash, k: int, list: seq<int>, c0: int, c1: int, c2: int, c3: int)
    requires After(u, s, k) && LiveIn(s.table, u.vt) == {} && k < PAGES_PER_BLK
    requires NoDup(list) && u.vt.no in list && u.gc.no !in list
    requires u.wb.bank == u.gc.bank == u.vt.bank && 0 <= u.wb.no && 0 <= u.gc.no
    requires c0 == u.wb.no * PAGES_PER_BLK + u.r && CursorOk(u.s0, u.vt.bank, list, c0)
    requires u.r < PAGES_PER_BLK - 1 ==> u.wb != u.vt
    requires u.tracked == set b | b in list && b != u.vt.no :: Blk(u.vt.bank, b)
    requires forall b :: b in list ==> BlockOk(u.s0, Blk(u.vt.bank, b), c0, c1, c2, c3)
    requires Shaped(Returned(s, u.vt)) && Placed(Returned(s, u.vt))
    ensures NoDup(ListAfter(u, list, k)) && u.vt.no !in ListAfter(u, list, k)
    ensures !Switched(u, k) ==> u.gc.no !in ListAfter(u, list, k)
    ensures forall b :: b in ListAfter(u, list, k) ==>
      BlockOk(Returned(s, u.vt), Blk(u.vt.bank, b), Cursor(u, k), c1, c2, c3)
  {
    hide Legible, Others, Ahead, Programmed;
    WithoutFacts(list, u.vt.no);
    ReturnedBlocks(u, s, k);
    var s' := Returned(s, u.vt);
    forall b | b in ListAfter(u, list, k)
      ensures BlockOk(s', Blk(u.vt.bank, b), Cursor(u, k), c1, c2, c3)
    {
      assert b in Without(list, u.vt.no) || (Switched(u, k) && b == u.gc.no);
      assert Blk(u.vt.bank, b) in Tracked(u, k);
      if b != u.gc.no {
        assert BlockOk(u.s0, Blk(u.vt.bank, b), c0, c1, c2, c3);
        StillLegible(u, s, k, b, c0, c1, c2, c3);
      }
    }
  }

  // A block that is not written any more is legible.
  lemma StillLegible(u: Run, s: Flash, k: int, b: int, c0: int, c1: int, c2: int, c3: int)
    requires After(u, s, k) && LiveIn(s.table, u.vt) == {} && k < PAGES_PER_BLK && b != u.vt.no && b != u.gc.no
    requires u.wb.bank == u.gc.bank == u.vt.bank && 0 <= u.wb.no && 0 <= u.gc.no
    requires c0 == u.wb.no * PAGES_PER_BLK + u.r
    requires Ongoing(c0, b) ==> Legible(u.s0, Blk(u.vt.bank, b), u.r)
    requires Skipped(b, c0, c1, c2, c3) || Legible(u.s0, Blk(u.vt.bank, b), PAGES_PER_BLK)
    ensures Skipped(b, Cursor(u, k), c1, c2, c3) || Legible(Returned(s, u.vt), Blk(u.vt.bank, b), PAGES_PER_BLK)
  {
    hide Kept, Others, Ahead, SameMeaning, Carried, Placed, Shaped;
    var x, s' := Blk(u.vt.bank, b), Returned(s, u.vt);
    assert forall m :: Legible(u.s0, x, m) ==> Legible(s', x, m) by { LegibleKept(u, s, k, x); }
    if Ongoing(c0, b) && u.r + k >= PAGES_PER_BLK - 1 {
      WrittenPages(u, s, k);
      assert Legible(s', x, u.r);
    }
  }

  lemma LegibleKept(u: Run, s: Flash, k: int, x: Blk)
    requires After(u, s, k) && LiveIn(s.table, u.vt) == {} && x != u.vt
    ensures forall m :: Legible(u.s0, x, m) ==> Legible(Returned(s, u.vt), x, m)
  {
    ReturnedOk(u, s, k);
    ReturnedBlocks(u, s, k);
  }

  // A round that gives up a block uses up one of the spare ones.
  lemma RoomLess(t: seq<Place>, t': seq<Place>, bank: int, list: seq<int>, vt: int)
    requires NoDup(list) && vt in list && Roomy(t, bank, list, 1) && |t'| == |t| && LiveIn(t, Blk(bank, vt)) == {}
    requires forall l :: 0 <= l < |t| ==> t'[l] == t[l]
    ensures Roomy(t', bank, Without(list, vt), 0)
  {
    WithoutFacts(list, vt);
    var a, b := LiveInAll(t, bank, list), LiveInAll(t', bank, Without(list, vt));
    forall l | l in b
      ensures l in a
    {
      assert t'[l] == t[l];
    }
    SubsetSize(b, a);
  }

  // A round leaves alone every block that is not in the data list or empty.
  lemma RoundOutside(u: Run, s: Flash, k: int, touched: set<Blk>)
    requires After(u, s, k) && u.tracked + {u.vt, u.gc} <= touched
    ensures Outside(u.s0, Returned(s, u.vt), touched)
  {
    var s' := Returned(s, u.vt);
    forall x | x in s'.bits && x !in u.s0.bits
      ensures x.Nand? && x.blk in touched
    {
      assert (x.blk, x.page) in s.nand && (x.blk, x.page) !in u.s0.nand;
    }
  }
}
