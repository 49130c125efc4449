/** get_vt_vblock (ATLWrapper.cpp:3020-3065). */
module VictimChoice {
  import opened Layout
  import opened FlashState
  import opened FlashDevice
  import opened GcSpace

  // `vt` is the first block of the data list with the fewest live pages, blocks
  // being written apart.
  ghost predicate FirstLeast(vcount: map<Blk, int>, bank: int, list: seq<int>, c0: int, c1: int, c2: int, c3: int,
                             vt: int) {
    exists i :: 0 <= i < |list| && list[i] == vt && LeastAt(vcount, bank, list, c0, c1, c2, c3, i)
  }

  ghost predicate LeastAt(vcount: map<Blk, int>, bank: int, list: seq<int>, c0: int, c1: int, c2: int, c3: int, i: nat)
    requires i < |list|
  {
    && !Skipped(list[i], c0, c1, c2, c3) && Blk(bank, list[i]) in vcount
    && (forall j :: 0 <= j < |list| && !Skipped(list[j], c0, c1, c2, c3) ==>
          && Blk(bank, list[j]) in vcount && vcount[Blk(bank, list[i])] <= vcount[Blk(bank, list[j])]
          && (j < i ==> vcount[Blk(bank, list[i])] < vcount[Blk(bank, list[j])]))
  }

  method GetVictim(dev: Device, bank: int, dataList: seq<int>, c0: int, c1: int, c2: int, c3: int) returns (vt: int)
    requires forall b :: b in dataList ==> Blk(bank, b) in dev.vcount && 0 <= dev.vcount[Blk(bank, b)] <= BLK_LPAGES
    requires exists b :: b in dataList && !Skipped(b, c0, c1, c2, c3) && dev.vcount[Blk(bank, b)] <= MOST_LIVE
    ensures vt in dataList && !Skipped(vt, c0, c1, c2, c3) && dev.vcount[Blk(bank, vt)] <= MOST_LIVE
    ensures forall b :: b in dataList && !Skipped(b, c0, c1, c2, c3) ==>
      dev.vcount[Blk(bank, vt)] <= dev.vcount[Blk(bank, b)]
    ensures FirstLeast(dev.vcount, bank, dataList, c0, c1, c2, c3, vt)
  {
    var least := BLK_LPAGES;
    vt := VC_MAX;
    ghost var at := 0;
    for i := 0 to |dataList|
      invariant least <= BLK_LPAGES
      invariant forall j :: 0 <= j < i && !Skipped(dataList[j], c0, c1, c2, c3) ==>
        least <= dev.vcount[Blk(bank, dataList[j])]
      invariant least < BLK_LPAGES ==>
        at < i && vt == dataList[at] && !Skipped(vt, c0, c1, c2, c3) && dev.vcount[Blk(bank, vt)] == least
      invariant forall j :: 0 <= j < at && least < BLK_LPAGES && !Skipped(dataList[j], c0, c1, c2, c3) ==>
        least < dev.vcount[Blk(bank, dataList[j])]
    {
      var block := dataList[i];
      if !Skipped(block, c0, c1, c2, c3) {
        var v := dev.GetVcount(Blk(bank, block));
        if least > v {
          vt, least, at := block, v, i;
        }
      }
    }
  }
}
