/** map_read and map_write for one bank, on the bank's tables and flash
    (ATLWrapper.cpp:342-608). */
module MapStore {
  import opened Layout
  import opened MapState
  import opened MapGc
  import BlockPartition

  class MapBank {
    const words: nat              // table entries per map page
    const mapping: array<int>
    const p2l: array<int>
    const count: array<int>
    const off: array<int>
    const vcount: array<int>
    var freeList: seq<int>
    var flash: map<(int, int), Page>
    var gcBlk: int
    var freeBlks: int
    var cur: int
    var started: bool

    ghost function State(): MapState
      reads Repr()
    {
      MapState(mapping[..], p2l[..], count[..], off[..], vcount[..], freeList, flash, gcBlk, freeBlks, cur, started)
    }

    ghost function Repr(): set<object> {
      {this, mapping, p2l, count, off, vcount}
    }

    ghost predicate Apart() {
      && mapping != p2l && mapping != count && mapping != off && mapping != vcount
      && p2l != count && p2l != off && p2l != vcount && count != off && count != vcount && off != vcount
    }

    ghost predicate Valid()
      reads Repr()
    {
      Apart() && Inv(State())
    }

    // The stored map pages.
    ghost function Pages(): seq<Page>
      requires Valid()
      reads Repr()
    {
      Contents(State(), words)
    }

    // The free list and the map blocks, among the bank's other lists.
    ghost function Lists(rest: BlockPartition.Bank): BlockPartition.Bank
      reads this, off
    {
      rest.(free := freeList, maps := off[..])
    }

    // The next write collects, and there is a free block.
    predicate Switches()
      reads this
    {
      freeBlks == 0 && cur % PAGES_PER_BLK == PAGES_PER_BLK - 1 && freeList != []
    }

    // The next write collects.
    predicate Collects()
      reads this
    {
      freeBlks == 0 && cur % PAGES_PER_BLK == PAGES_PER_BLK - 1
    }

    // The victim and the head of the free list have changed places, if there was
    // a free block.
    twostate predicate Switched(victim: int)
      reads this, off
    {
      if old(freeList) == [] then freeList == [] && off[..] == old(off[..])
      else
        && 0 <= victim < off.Length && off[..] == old(off[..])[victim := old(freeList)[0]]
        && freeList == old(freeList)[1..] + [old(off[victim])]
    }

    twostate lemma SwitchedStep(victim: int)
      requires Switched(victim)
      ensures old(freeList) == [] ==> forall rest :: Lists(rest) == old(Lists(rest))
      ensures old(freeList) != [] ==>
        0 <= victim < off.Length && forall rest ::
          Lists(rest) == BlockPartition.Apply(old(Lists(rest)), BlockPartition.SwitchMap(victim))
    {
    }

    // After RSP_Open: `offs` are the erased map blocks, the last one the
    // block kept for garbage collection, `free` the remaining free blocks.
    constructor (entries: nat, offs: seq<int>, free: seq<int>, physical: nat, pageWords: nat)
      requires 2 <= |offs| && |offs| * PAGES_PER_BLK < VC_MAX && entries < (|offs| - 1) * PAGES_PER_BLK
      requires NoDup(offs) && NoDup(free)
      requires forall b :: b in offs ==> 0 <= b < physical && b !in free
      requires forall b :: b in free ==> 0 <= b < physical
      ensures Valid() && Pages() == seq(entries, _ => seq(pageWords, _ => VC_MAX)) && words == pageWords
      ensures fresh(Repr())
    {
      words := pageWords;
      mapping := new int[entries](_ => VC_MAX);
      p2l := new int[|offs| * PAGES_PER_BLK](_ => VC_MAX);
      count := new int[|offs|](i => if i == |offs| - 1 then VC_MAX else 0);
      off := new int[|offs|](i requires 0 <= i < |offs| => offs[i]);
      vcount := new int[physical](b => if b in offs then VC_MAX else 0);
      freeList := free;
      flash := map[];
      gcBlk := |offs| - 1;
      freeBlks := |offs| - 1;
      cur := 0;
      started := false;
      new;
      assert off[..] == offs;
      forall b | 0 <= b < |offs|
        ensures LiveIn(mapping[..], b) == {}
      {
      }
      assert Inv(State());
    }

    // ------------------------------------------------ table updates

    method SetMapping(i: int, v: int)
      requires Apart() && 0 <= i < mapping.Length
      modifies mapping
      ensures State() == old(State()).(mapping := old(State()).mapping[i := v])
    {
      mapping[i] := v;
      assert mapping[..] == old(mapping[..])[i := v];
    }

    method SetP2l(i: int, v: int)
      requires Apart() && 0 <= i < p2l.Length
      modifies p2l
      ensures State() == old(State()).(p2l := old(State()).p2l[i := v])
    {
      p2l[i] := v;
      assert p2l[..] == old(p2l[..])[i := v];
    }

    method SetOff(i: int, v: int)
      requires Apart() && 0 <= i < off.Length
      modifies off
      ensures State() == old(State()).(off := old(State()).off[i := v])
    {
      off[i] := v;
      assert off[..] == old(off[..])[i := v];
    }

    method SetVcount(i: int, v: int)
      requires Apart() && 0 <= i < vcount.Length
      modifies vcount
      ensures State() == old(State()).(vcount := old(State()).vcount[i := v])
    {
      vcount[i] := v;
      assert vcount[..] == old(vcount[..])[i := v];
    }

    method GetMapVcount(block: int) returns (v: int)
      requires 0 <= block < count.Length
      ensures v == count[block] == State().count[block]
    {
      v := count[block];
    }

    method SetMapVcount(block: int, v: int)
      requires Apart() && 0 <= block < count.Length && (v <= PAGES_PER_BLK || v == VC_MAX)
      modifies count
      ensures State() == old(State()).(count := old(State()).count[block := v])
    {
      count[block] := v;
      assert count[..] == old(count[..])[block := v];
    }

    // ------------------------------------------------ flash

    // A page is programmed at most once between two erasures of its block.
    method Program(block: int, page: int, data: Page)
      requires (block, page) !in flash
      modifies this`flash
      ensures flash == old(flash)[(block, page) := data]
    {
      flash := flash[(block, page) := data];
    }

    method Erase(block: int)
      modifies this`flash
      ensures flash == Erased(old(flash), block)
    {
      flash := map x | x in flash && x.0 != block :: flash[x];
    }

    // ------------------------------------------------ map_read

    method Read(e: int) returns (page: Page)
      requires Valid() && 0 <= e < mapping.Length
      ensures page == Pages()[e]
    {
      var ppn := mapping[e];
      if ppn == VC_MAX {
        return seq(words, _ => VC_MAX);
      }
      assert Where(State(), mapping[..][e]) in flash;
      var block := ppn / PAGES_PER_BLK;
      page := flash[(off[block], ppn % PAGES_PER_BLK)];
    }

    // ------------------------------------------------ map_write

    method Write(e: int, page: Page) returns (ghost victim: int)
      requires Valid() && 0 <= e < mapping.Length
      modifies Repr()
      ensures Valid() && Pages() == old(Pages())[e := page]
      ensures !old(Collects()) ==> State() == Written(Advanced(old(State())), e, page)
      ensures old(Collects()) ==>
        && FirstLeast(old(State()), victim) && gcBlk == victim
        && cur == old(gcBlk) * PAGES_PER_BLK + old(State()).count[victim] && mapping[e] == cur
      ensures old(Switches()) ==>
        0 <= victim < off.Length && forall rest ::
          Lists(rest) == BlockPartition.Apply(old(Lists(rest)), BlockPartition.SwitchMap(victim))
      ensures !old(Switches()) ==> forall rest :: Lists(rest) == old(Lists(rest))
    {
      ghost var s := State();
      victim := 0;
      if freeBlks == 0 && cur % PAGES_PER_BLK == PAGES_PER_BLK - 1 {
        victim := Collect();
        SwitchedStep(victim);
      } else {
        AdvancedReady(s, words);
        if started {
          cur := cur + 1;
        }
        assert State() == Advanced(s);
      }
      ghost var r := State();
      WrittenOk(r, words, e, page);
      Commit(e, page);
    }

    // The new page is entered in the tables and programmed at cur_map_vpn.
    method Commit(e: int, page: Page)
      requires Apart() && Ready(State()) && 0 <= e < mapping.Length
      modifies this`flash, this`started, this`freeBlks, mapping, p2l, count
      ensures State() == Written(old(State()), e, page)
    {
      ghost var s := State();
      assert 0 <= cur < p2l.Length && Where(s, cur) !in flash && s.cur < End(s);
      Recount(e, page);
      started := true;
      SetMapping(e, cur);
      SetP2l(cur, e);
      if cur % PAGES_PER_BLK == PAGES_PER_BLK - 1 && freeBlks != 0 {
        freeBlks := freeBlks - 1;
      }
      Program(off[cur / PAGES_PER_BLK], cur % PAGES_PER_BLK, page);
    }

    // One live page less where the entry was, one more where it goes.
    method Recount(e: int, ghost page: Page)
      requires Apart() && Ready(State()) && 0 <= e < mapping.Length
      modifies count
      ensures State() == old(State()).(count := Recounted(old(State()).count, old(State()).mapping[e], cur))
    {
      CountsFit(State(), e, page);
      var oldVpn := mapping[e];
      assert oldVpn == State().mapping[e];
      if oldVpn != VC_MAX {
        var v := GetMapVcount(oldVpn / PAGES_PER_BLK);
        SetMapVcount(oldVpn / PAGES_PER_BLK, v - 1);
      }
      var v := GetMapVcount(cur / PAGES_PER_BLK);
      SetMapVcount(cur / PAGES_PER_BLK, v + 1);
    }

    lemma SomeVictim()
      requires Valid()
      ensures 0 <= gcBlk < count.Length && count[gcBlk] == VC_MAX
      ensures exists b :: 0 <= b < count.Length && count[b] < PAGES_PER_BLK
    {
      hide Placed, Room;
      var s := State();
      Pigeonhole(s.mapping, s.gcBlk, |s.count|);
      var b :| 0 <= b < |s.count| && b != s.gcBlk && |LiveIn(s.mapping, b)| < PAGES_PER_BLK;
      assert s.count[b] == |LiveIn(s.mapping, b)| && count[b] == s.count[b];
      assert count[..][gcBlk] == VC_MAX;
    }

    // The block with the fewest live pages, as map_write looks for it.
    method FindVictim() returns (victim: int, least: int)
      requires Valid()
      ensures 0 <= victim < count.Length && victim != gcBlk && least == count[victim] < PAGES_PER_BLK
      ensures FirstLeast(State(), victim)
    {
      SomeVictim();
      hide Inv;
      victim, least := 0, PAGES_PER_BLK;
      for i := 0 to count.Length
        invariant 0 <= victim < count.Length && least <= PAGES_PER_BLK
        invariant forall b :: 0 <= b < i ==> count[b] >= least
        invariant forall b :: 0 <= b < victim ==> count[b] > least
        invariant least < PAGES_PER_BLK ==> least == count[victim]
      {
        var v := GetMapVcount(i);
        if least > v {
          least := v;
          victim := i;
        }
      }
      assert forall b :: 0 <= b < count.Length ==> count[..][b] == count[b];
    }

    // Copy the victim's live pages to the empty block and empty the victim.
    method Collect() returns (victim: int)
      requires Valid() && freeBlks == 0
      modifies Repr()
      ensures Apart() && Ready(State()) && Contents(State(), words) == old(Pages())
      ensures Switched(victim)
      ensures FirstLeast(old(State()), victim) && gcBlk == victim
      ensures cur == old(gcBlk) * PAGES_PER_BLK + old(State()).count[victim] && freeBlks == 0
    {
      ghost var s0 := State();
      var least;
      victim, least := FindVictim();
      ghost var i;
      var free;
      CollectingStarts(s0, victim);
      i, free := CopyLive(s0, victim, least);
      Finish(s0, victim, i, least, free);
    }

    // The copy loop.
    method CopyLive(ghost s0: MapState, victim: int, least: int) returns (ghost seen: int, free: int)
      requires Apart() && Collecting(s0, State(), victim, 0, gcBlk * PAGES_PER_BLK) && least == s0.count[victim]
      modifies this`flash, mapping, p2l
      ensures Collecting(s0, State(), victim, seen, free)
      ensures seen == PAGES_PER_BLK || free - gcBlk * PAGES_PER_BLK == least
    {
      free := gcBlk * PAGES_PER_BLK;
      var i := 0;
      while i < PAGES_PER_BLK && free - gcBlk * PAGES_PER_BLK < least
        invariant Collecting(s0, State(), victim, i, free)
        decreases PAGES_PER_BLK - i
      {
        free := CopyPage(s0, victim, i, free);
        i := i + 1;
      }
      seen := i;
    }

    method Finish(ghost s0: MapState, victim: int, ghost i: int, least: int, free: int)
      requires Apart() && Collecting(s0, State(), victim, i, free) && freeBlks == 0 && least == s0.count[victim]
      requires i == PAGES_PER_BLK || free - gcBlk * PAGES_PER_BLK == least
      modifies Repr()
      ensures Apart() && Ready(State()) && Contents(State(), words) == Contents(s0, words)
      ensures |State().mapping| == |s0.mapping| && Switched(victim)
      ensures gcBlk == victim && cur == s0.gcBlk * PAGES_PER_BLK + s0.count[victim] && freeBlks == 0
    {
      ghost var s := State();
      AllMoved(s0, s, victim, i, free);
      ReclaimedOk(s0, s, words, victim, i, free);
      CollectingPlaced(s0, s, victim, i, free);
      assert freeList != [] ==> freeList[0] in s.freeList;
      assert s.off[victim] in s.off;
      Reclaim(victim, least, free);
    }

    // One iteration of the copy loop.
    method CopyPage(ghost s0: MapState, victim: int, i: int, free: int) returns (free': int)
      requires Apart() && Collecting(s0, State(), victim, i, free) && i < PAGES_PER_BLK
      modifies this`flash, mapping, p2l
      ensures Collecting(s0, State(), victim, i + 1, free')
    {
      ghost var s := State();
      var src := p2l[victim * PAGES_PER_BLK + i];
      if src == VC_MAX {
        SkipOk(s0, s, victim, i, free);
        return free;
      }
      assert s.p2l[victim * PAGES_PER_BLK + i] != VC_MAX && s.mapping[src] != VC_MAX;
      var oldVpn := mapping[src];
      if oldVpn != victim * PAGES_PER_BLK + i {
        SkipOk(s0, s, victim, i, free);
        return free;
      }
      CopyPossible(s0, s, victim, i, free, src);
      CopyOk(s0, s, victim, i, free, src);
      MovePage(src, free);
      return free + 1;
    }

    // Copy the page of entry `src` to page `free` of the map area.
    method MovePage(src: int, free: int)
      requires Apart() && Sized(State()) && 0 <= src < mapping.Length && 0 <= free < p2l.Length
      requires 0 <= mapping[src] < p2l.Length && 0 <= State().mapping[src] < p2l.Length
      requires Where(State(), State().mapping[src]) in flash && Where(State(), free) !in flash
      modifies this`flash, mapping, p2l
      ensures State() == Copied(old(State()), src, free)
    {
      var oldVpn := mapping[src];
      SetMapping(src, free);
      SetP2l(free, src);
      var data := flash[(off[oldVpn / PAGES_PER_BLK], oldVpn % PAGES_PER_BLK)];
      Program(off[free / PAGES_PER_BLK], free % PAGES_PER_BLK, data);
    }

    method Reclaim(victim: int, least: int, free: int)
      requires Apart() && Sized(State()) && 0 <= victim < count.Length && victim != gcBlk
      requires least == count[victim] < PAGES_PER_BLK && 0 <= off[victim] < vcount.Length
      requires freeList != [] ==> 0 <= freeList[0] < vcount.Length
      requires freeList != [] ==>
        freeList[0] != off[victim] && (vcount[freeList[0]] == 0 || vcount[freeList[0]] == VC_MAX)
      modifies Repr()
      ensures State() == Reclaimed(old(State()), victim, free) && Switched(victim)
    {
      hide Stored, Counted, Placed, Room, Inv;
      ghost var s := State();
      SetMapVcount(victim, VC_MAX);
      SetMapVcount(gcBlk, least);
      gcBlk := victim;
      if freeList != [] {
        // for simple wear-leveling
        var switchBlock := freeList[0];
        freeList := freeList + [off[victim]];
        SetVcount(off[victim], 0);
        freeList := freeList[1..];
        SetOff(victim, switchBlock);
        if vcount[switchBlock] == 0 {
          Erase(switchBlock);
          SetVcount(switchBlock, VC_MAX);
        }
        assert freeList == s.freeList[1..] + [s.off[victim]];
        assert State().vcount == s.vcount[s.off[victim] := 0][switchBlock := VC_MAX];
      } else {
        Erase(off[victim]);
      }
      cur := free;
      assert freeList == State().freeList && off[..] == State().off;
    }
  }

  lemma CountsFit(s: MapState, e: int, page: Page)
    requires Ready(s) && 0 <= e < |s.mapping|
    ensures s.mapping[e] != VC_MAX ==> 0 <= s.mapping[e] / PAGES_PER_BLK < |s.count|
    ensures s.mapping[e] != VC_MAX ==> 0 < s.count[s.mapping[e] / PAGES_PER_BLK] <= PAGES_PER_BLK
    ensures 0 <= s.cur / PAGES_PER_BLK < |s.count|
    ensures Recounted(s.count, s.mapping[e], s.cur)[s.cur / PAGES_PER_BLK] <= PAGES_PER_BLK
  {
    WrittenCounted(s, e, page);
    WrittenStored(s, e, page);
    if s.mapping[e] != VC_MAX {
      LiveSmall(s, s.mapping[e] / PAGES_PER_BLK);
    }
    LiveSmall(Written(s, e, page), s.cur / PAGES_PER_BLK);
  }

  lemma LiveSmall(s: MapState, b: int)
    requires Sized(s) && Stored(s) && Counted(s) && 0 <= b < |s.count| && b != s.gcBlk
    ensures s.count[b] <= PAGES_PER_BLK
  {
    LiveBound(s.mapping, b);
  }
}
