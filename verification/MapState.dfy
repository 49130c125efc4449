/** The flash-resident mapping table of one bank (ATLWrapper.cpp:342-608).

    Map page `e` of the bank lives in page `mapping[e]` of the bank's map area,
    a log of `blks` erase blocks one of which is kept empty for garbage
    collection.  `off` places each map block on a physical block, `flash` holds
    the programmed pages of the bank. */
module MapState {
  import opened Layout
  import opened SetSizes

  type Page = seq<nat>

  datatype MapState = MapState(
    mapping: seq<int>,                // MAP_MAPPING_TABLE, this bank's part
    p2l: seq<int>,                    // MAPP2L
    count: seq<int>,                  // MAP_VALID_COUNT
    off: seq<int>,                    // map_blk_offset
    vcount: seq<int>,                 // block_list[].vcount of the physical blocks
    freeList: seq<int>,               // free_list
    flash: map<(int, int), Page>,     // (physical block, page), programmed only
    gcBlk: int,                       // MAP_GC_BLK
    freeBlks: int,                    // map_free_blk
    cur: int,                         // cur_map_vpn
    started: bool)                    // map_start

  // ------------------------------------------------ addresses

  ghost function Where(s: MapState, q: int): (int, int)
    requires 0 <= q < |s.off| * PAGES_PER_BLK
  {
    (s.off[q / PAGES_PER_BLK], q % PAGES_PER_BLK)
  }

  ghost predicate Sized(s: MapState) {
    && 2 <= |s.count| == |s.off| && |s.p2l| == |s.count| * PAGES_PER_BLK
    && |s.mapping| < (|s.count| - 1) * PAGES_PER_BLK
    && |s.count| * PAGES_PER_BLK < VC_MAX
    && 0 <= s.gcBlk < |s.count| && 0 <= s.cur < |s.p2l|
  }

  // ------------------------------------------------ counting

  ghost function LiveIn(mapping: seq<int>, b: int): set<int> {
    set e | 0 <= e < |mapping| && mapping[e] != VC_MAX && mapping[e] / PAGES_PER_BLK == b
  }

  ghost function MappedBelow(mapping: seq<int>, b: int): set<int> {
    set e | 0 <= e < |mapping| && mapping[e] != VC_MAX && mapping[e] / PAGES_PER_BLK < b
  }

  // Moving one entry changes two counts by one.
  lemma LiveMove(mapping: seq<int>, e: int, q: int, b: int)
    requires 0 <= e < |mapping| && q != VC_MAX
    ensures LiveIn(mapping[e := q], b) ==
      if q / PAGES_PER_BLK == b then LiveIn(mapping, b) + {e} else LiveIn(mapping, b) - {e}
  {
  }

  lemma LiveBound(mapping: seq<int>, b: int)
    requires forall e, f :: 0 <= e < |mapping| && 0 <= f < |mapping| && mapping[e] == mapping[f] != VC_MAX ==> e == f
    ensures |LiveIn(mapping, b)| <= PAGES_PER_BLK
  {
    var key := (e: int) => if 0 <= e < |mapping| then mapping[e] % PAGES_PER_BLK else 0;
    forall e, f | e in LiveIn(mapping, b) && f in LiveIn(mapping, b) && key(e) == key(f)
      ensures e == f
    {
      assert mapping[e] == b * PAGES_PER_BLK + mapping[e] % PAGES_PER_BLK;
      assert mapping[f] == b * PAGES_PER_BLK + mapping[f] % PAGES_PER_BLK;
    }
    InjectionBound(LiveIn(mapping, b), key, PAGES_PER_BLK);
  }

  // If every block but `gc` were full, there would be more map pages than entries.
  lemma {:induction false} FullBlocks(mapping: seq<int>, gc: int, b: nat)
    requires forall e :: 0 <= e < |mapping| && mapping[e] != VC_MAX ==> 0 <= mapping[e]
    requires forall c :: 0 <= c < b && c != gc ==> |LiveIn(mapping, c)| >= PAGES_PER_BLK
    ensures |MappedBelow(mapping, b)| >= (if 0 <= gc < b then b - 1 else b) * PAGES_PER_BLK
  {
    if b == 0 {
    } else {
      FullBlocks(mapping, gc, b - 1);
      assert MappedBelow(mapping, b) == MappedBelow(mapping, b - 1) + LiveIn(mapping, b - 1);
      assert MappedBelow(mapping, b - 1) !! LiveIn(mapping, b - 1);
    }
  }

  lemma Pigeonhole(mapping: seq<int>, gc: int, blks: nat)
    requires forall e :: 0 <= e < |mapping| && mapping[e] != VC_MAX ==> 0 <= mapping[e]
    requires 0 <= gc < blks && |mapping| < (blks - 1) * PAGES_PER_BLK
    ensures exists b :: 0 <= b < blks && b != gc && |LiveIn(mapping, b)| < PAGES_PER_BLK
  {
    if forall c :: 0 <= c < blks && c != gc ==> |LiveIn(mapping, c)| >= PAGES_PER_BLK {
      FullBlocks(mapping, gc, blks);
      InjectionBound(MappedBelow(mapping, blks), e => e, |mapping|);
    }
  }

  // The layout macros leave room for any number of map entries
  // (ATLWrapper.h:65-70): `total` map pages on `banks` banks.
  function DivUp(a: nat, b: nat): nat
    requires b > 0
  {
    (a + b - 1) / b
  }

  lemma DivUpBounds(a: nat, b: nat, q: nat)
    requires b > 0
    ensures a <= DivUp(a, b) * b
    ensures a <= q * b ==> DivUp(a, b) <= q
  {
    var d := DivUp(a, b);
    assert a + b - 1 == d * b + (a + b - 1) % b;
    if a <= q * b && d > q {
      ProductOrder(q + 1, d, b);
    }
  }

  lemma ProductOrder(x: nat, y: nat, b: nat)
    requires x <= y
    ensures x * b <= y * b
  {
  }

  lemma LayoutRoom(total: nat, banks: nat)
    requires banks > 0
    ensures var perBank := DivUp(total, banks);
      var blksPerBank := DivUp(DivUp(total, PAGES_PER_BLK), banks) + 5;
      perBank <= (blksPerBank - 5) * PAGES_PER_BLK < (blksPerBank - 1) * PAGES_PER_BLK
  {
    var blks := DivUp(total, PAGES_PER_BLK);
    var m := DivUp(blks, banks);
    DivUpBounds(total, PAGES_PER_BLK, 0);
    DivUpBounds(blks, banks, 0);
    assert total <= blks * PAGES_PER_BLK <= (m * banks) * PAGES_PER_BLK;
    assert (m * banks) * PAGES_PER_BLK == (m * PAGES_PER_BLK) * banks;
    DivUpBounds(total, banks, m * PAGES_PER_BLK);
  }

  // ------------------------------------------------ the invariant

  // Every stored page is where the tables say.
  ghost predicate Stored(s: MapState)
    requires Sized(s)
  {
    && (forall e :: 0 <= e < |s.mapping| && s.mapping[e] != VC_MAX ==>
          && 0 <= s.mapping[e] < |s.p2l| && s.mapping[e] / PAGES_PER_BLK != s.gcBlk
          && s.p2l[s.mapping[e]] == e
          && Where(s, s.mapping[e]) in s.flash)
    && (forall q :: 0 <= q < |s.p2l| && s.p2l[q] != VC_MAX ==>
          0 <= s.p2l[q] < |s.mapping| && s.mapping[s.p2l[q]] != VC_MAX)
  }

  ghost predicate Counted(s: MapState)
    requires Sized(s)
  {
    && s.count[s.gcBlk] == VC_MAX
    && forall b :: 0 <= b < |s.count| && b != s.gcBlk ==> s.count[b] == |LiveIn(s.mapping, b)|
  }

  ghost predicate NoDup(s: seq<int>) {
    forall i, j :: 0 <= i < j < |s| ==> s[i] != s[j]
  }

  // Map blocks and free blocks are distinct physical blocks; a free block
  // marked as erased has no programmed page.
  ghost predicate Placed(s: MapState) {
    && NoDup(s.off) && NoDup(s.freeList)
    && (forall b :: b in s.off ==> 0 <= b < |s.vcount| && s.vcount[b] == VC_MAX && b !in s.freeList)
    && (forall f :: f in s.freeList ==> 0 <= f < |s.vcount| && (s.vcount[f] == 0 || s.vcount[f] == VC_MAX))
    && (forall f, i :: f in s.freeList && 0 <= f < |s.vcount| && s.vcount[f] == VC_MAX ==> (f, i) !in s.flash)
  }

  // One past the last page the current run of writes may use.
  ghost function End(s: MapState): int {
    if s.freeBlks > 0 then (|s.count| - 1) * PAGES_PER_BLK else (s.cur / PAGES_PER_BLK + 1) * PAGES_PER_BLK
  }

  ghost predicate Room(s: MapState)
    requires Sized(s)
  {
    && s.cur / PAGES_PER_BLK != s.gcBlk
    && (forall i :: (s.off[s.gcBlk], i) !in s.flash)
    && (forall q :: (if s.started then s.cur + 1 else s.cur) <= q < End(s) && q < |s.p2l| ==> Where(s, q) !in s.flash)
    && s.freeBlks >= 0
    && (s.freeBlks == 0 ==> s.started)
    && (s.freeBlks > 0 ==>
          && s.gcBlk == |s.count| - 1
          && s.freeBlks == |s.count| - 1 - (if s.started then (s.cur + 1) / PAGES_PER_BLK else 0)
          && (!s.started ==> s.cur == 0))
  }

  ghost predicate Inv(s: MapState) {
    Sized(s) && Stored(s) && Counted(s) && Placed(s) && Room(s)
  }

  // What map_read delivers: the stored page, or a page of VC_MAX words.
  ghost function Content(s: MapState, words: nat, e: int): Page
    requires Sized(s) && Stored(s) && 0 <= e < |s.mapping|
  {
    if s.mapping[e] == VC_MAX then seq(words, _ => VC_MAX)
    else s.flash[Where(s, s.mapping[e])]
  }

  ghost function Contents(s: MapState, words: nat): seq<Page>
    requires Sized(s) && Stored(s)
  {
    seq(|s.mapping|, e requires 0 <= e < |s.mapping| => Content(s, words, e))
  }

  // The first of the blocks with the fewest live pages; the spare one is none of them.
  ghost predicate FirstLeast(s: MapState, victim: int) {
    && 0 <= victim < |s.count| && victim != s.gcBlk && s.count[victim] < PAGES_PER_BLK
    && (forall b :: 0 <= b < |s.count| ==> s.count[b] >= s.count[victim])
    && (forall b :: 0 <= b < victim ==> s.count[b] > s.count[victim])
  }

  // ------------------------------------------------ writing one page

  // All is in order but for the page about to be written at `s.cur`.
  ghost predicate Ready(s: MapState) {
    && Sized(s) && Stored(s) && Counted(s) && Placed(s)
    && s.cur / PAGES_PER_BLK != s.gcBlk
    && (forall i :: (s.off[s.gcBlk], i) !in s.flash)
    && (forall q :: s.cur <= q < End(s) && q < |s.p2l| ==> Where(s, q) !in s.flash)
    && s.freeBlks >= 0
    && (s.freeBlks > 0 ==> s.gcBlk == |s.count| - 1 && s.freeBlks == |s.count| - 1 - s.cur / PAGES_PER_BLK)
  }

  ghost function Recounted(count: seq<int>, old_: int, cur: int): seq<int>
    requires 0 <= cur < |count| * PAGES_PER_BLK
    requires old_ != VC_MAX ==> 0 <= old_ < |count| * PAGES_PER_BLK
  {
    var b := cur / PAGES_PER_BLK;
    var c := if old_ == VC_MAX then count
             else count[old_ / PAGES_PER_BLK := count[old_ / PAGES_PER_BLK] - 1];
    c[b := c[b] + 1]
  }

  // The tables and the flash after map page `e` has been written at `s.cur`.
  ghost function Written(s: MapState, e: int, page: Page): MapState
    requires Sized(s) && Stored(s) && 0 <= e < |s.mapping|
  {
    s.(mapping := s.mapping[e := s.cur],
       p2l := s.p2l[s.cur := e],
       count := Recounted(s.count, s.mapping[e], s.cur),
       flash := s.flash[Where(s, s.cur) := page],
       started := true,
       freeBlks := if s.cur % PAGES_PER_BLK == PAGES_PER_BLK - 1 && s.freeBlks != 0 then s.freeBlks - 1 else s.freeBlks)
  }

  lemma WrittenCounted(s: MapState, e: int, page: Page)
    requires Ready(s) && 0 <= e < |s.mapping|
    ensures Sized(Written(s, e, page)) && Counted(Written(s, e, page))
    ensures s.mapping[e] != VC_MAX ==> s.count[s.mapping[e] / PAGES_PER_BLK] > 0
  {
    var s' := Written(s, e, page);
    forall b | 0 <= b < |s.count| && b != s.gcBlk
      ensures s'.count[b] == |LiveIn(s'.mapping, b)|
    {
      LiveMove(s.mapping, e, s.cur, b);
      if s.mapping[e] != VC_MAX {
        assert e in LiveIn(s.mapping, s.mapping[e] / PAGES_PER_BLK);
      }
    }
    if s.mapping[e] != VC_MAX {
      assert e in LiveIn(s.mapping, s.mapping[e] / PAGES_PER_BLK);
    }
  }

  // A page written where nothing was programmed disturbs no other page.
  lemma WrittenStored(s: MapState, e: int, page: Page)
    requires Ready(s) && 0 <= e < |s.mapping|
    ensures Stored(Written(s, e, page))
    ensures forall f :: 0 <= f < |s.mapping| && f != e && s.mapping[f] != VC_MAX ==> s.mapping[f] != s.cur
  {
  }

  lemma WrittenOk(s: MapState, words: nat, e: int, page: Page)
    requires Ready(s) && 0 <= e < |s.mapping|
    ensures Inv(Written(s, e, page))
    ensures Contents(Written(s, e, page), words) == Contents(s, words)[e := page]
  {
    var s' := Written(s, e, page);
    WrittenCounted(s, e, page);
    WrittenStored(s, e, page);
    WhereInjective(s);
    forall q | s.cur + 1 <= q < End(s') && q < |s.p2l|
      ensures Where(s', q) !in s'.flash
    {
      assert Where(s', q) == Where(s, q) && q < End(s);
    }
    forall f | 0 <= f < |s.mapping| && f != e
      ensures Content(s', words, f) == Content(s, words, f)
    {
    }
  }

  lemma WhereInjective(s: MapState)
    requires Sized(s) && Placed(s)
    ensures forall p, q :: 0 <= p < |s.p2l| && 0 <= q < |s.p2l| && Where(s, p) == Where(s, q) ==> p == q
  {
  }

  // The ordinary path of map_write: the next page of the log.
  ghost function Advanced(s: MapState): MapState {
    s.(cur := if s.started then s.cur + 1 else s.cur)
  }

  lemma AdvancedReady(s: MapState, words: nat)
    requires Inv(s) && !(s.freeBlks == 0 && s.cur % PAGES_PER_BLK == PAGES_PER_BLK - 1)
    ensures Ready(Advanced(s)) && Contents(Advanced(s), words) == Contents(s, words)
  {
    var s' := Advanced(s);
    forall q | s'.cur <= q < End(s') && q < |s.p2l|
      ensures Where(s', q) !in s'.flash
    {
      assert Where(s', q) == Where(s, q) && q < End(s);
    }
  }
}
