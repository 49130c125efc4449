/** What inter_GC will do, told from the valid counts alone: which victim it
    chooses, and which block it frees in the end (ATLWrapper.cpp:2326-2577,
    3020-3065). */
module Forecast {
  import opened Layout
  import opened FlashState
  import opened GcModel
  import opened GcSpace
  import opened BlockPartition

  // The block with the fewest live pages, the first of several; VC_MAX if all
  // are being written.
  function Choice(counts: map<int, int>, list: seq<int>, c0: int, c1: int, c2: int, c3: int): (vt: int)
    ensures vt == VC_MAX || (vt in list && vt in counts)
  {
    if list == [] then VC_MAX
    else
      var vt, x := Choice(counts, list[..|list| - 1], c0, c1, c2, c3), list[|list| - 1];
      if Skipped(x, c0, c1, c2, c3) || x !in counts then vt
      else if vt == VC_MAX || counts[x] < counts[vt] then x
      else vt
  }

  lemma {:induction false} ChoiceLeast(counts: map<int, int>, list: seq<int>, c0: int, c1: int, c2: int, c3: int)
    requires forall b :: b in list ==> b in counts && b != VC_MAX
    ensures var vt := Choice(counts, list, c0, c1, c2, c3);
      && (forall j :: 0 <= j < |list| && !Skipped(list[j], c0, c1, c2, c3) ==>
            vt != VC_MAX && counts[vt] <= counts[list[j]])
      && (vt != VC_MAX ==> !Skipped(vt, c0, c1, c2, c3))
  {
    if list == [] {
    } else {
      var rest := list[..|list| - 1];
      assert forall b :: b in rest ==> b in list;
      assert forall j :: 0 <= j < |rest| ==> rest[j] == list[j];
      ChoiceLeast(counts, rest, c0, c1, c2, c3);
    }
  }

  // A block no later than the others with as few pages is the one chosen.
  lemma {:induction false} ChoiceFirst(counts: map<int, int>, list: seq<int>, c0: int, c1: int, c2: int, c3: int,
                                       i: nat)
    requires i < |list| && !Skipped(list[i], c0, c1, c2, c3) && forall b :: b in list ==> b in counts && b != VC_MAX
    requires forall j :: 0 <= j < |list| && !Skipped(list[j], c0, c1, c2, c3) ==>
      counts[list[i]] <= counts[list[j]] && (j < i ==> counts[list[i]] < counts[list[j]])
    ensures Choice(counts, list, c0, c1, c2, c3) == list[i]
  {
    var rest := list[..|list| - 1];
    assert forall b :: b in rest ==> b in list;
    if i == |rest| {
      ChoiceLeast(counts, rest, c0, c1, c2, c3);
      var vt := Choice(counts, rest, c0, c1, c2, c3);
      if vt != VC_MAX {
        var j :| 0 <= j < |rest| && rest[j] == vt;
        assert list[j] == vt;
      }
    } else {
      forall j | 0 <= j < |rest|
        ensures rest[j] == list[j]
      {
      }
      ChoiceFirst(counts, rest, c0, c1, c2, c3, i);
    }
  }

  // The write pointer `count` pages on, the empty block `gc` being opened behind its own.
  function CursorAt(cursor: int, gc: int, count: int): int {
    cursor + (count + SLOTS - 1) / SLOTS
      + if Opens(cursor, count) then (gc - cursor / PAGES_PER_BLK - 1) * PAGES_PER_BLK else 0
  }

  lemma CursorMoves(cursor: int, gc: int, count: int)
    requires 0 <= count <= MOST_LIVE && 0 <= cursor && 0 <= gc
    ensures Opens(cursor, count) ==> 0 <= CursorAt(cursor, gc, count) % PAGES_PER_BLK < cursor % PAGES_PER_BLK
    ensures Opens(cursor, count) ==> CursorAt(cursor, gc, count) / PAGES_PER_BLK == gc
    ensures count == 0 ==> CursorAt(cursor, gc, count) == cursor && !Opens(cursor, count)
    ensures cursor % PAGES_PER_BLK == PAGES_PER_BLK - 1 && count > 0 ==> Opens(cursor, count)
  {
  }

  // The data list once the victim has left it and the copies have opened the
  // empty block or not.
  function DataAfter(list: seq<int>, vt: int, cursor: int, gc: int, count: int): seq<int> {
    Without(list, vt) + if Opens(cursor, count) then [gc] else []
  }

  // Its counts: the copies have filled the write pointer's block before `gc`.
  function Recounted(counts: map<int, int>, list: seq<int>, cursor: int, gc: int, count: int): map<int, int> {
    map b | b in list ::
      var r := cursor % PAGES_PER_BLK;
      if b == gc then count - Fitting(r, count)
      else (if b in counts then counts[b] else 0) + if b == cursor / PAGES_PER_BLK then Fitting(r, count) else 0
  }

  predicate Countable(counts: map<int, int>, list: seq<int>, cursor: int, gc: int) {
    && NoDup(list) && gc !in list && 0 <= cursor && 0 <= gc
    && (cursor / PAGES_PER_BLK == gc ==> cursor % PAGES_PER_BLK == PAGES_PER_BLK - 1)
    && forall b :: b in list ==> 0 <= b && b != VC_MAX && b in counts && 0 <= counts[b]
  }

  // What inter_GC leaves: the block it frees, or VC_MAX, the write pointer, the
  // empty block and the data list.
  datatype Ending = Ending(block: int, cursor: int, gc: int, list: seq<int>)

  // The end of inter_GC.  It frees none if a round finds no victim with a
  // superpage's worth of dead pages, or there is no empty block (`gc` is VC_MAX)
  // for the copies to open.
  function Freed(counts: map<int, int>, list: seq<int>, cursor: int, gc: int, c1: int, c2: int, c3: int): Ending
    requires Countable(counts, list, cursor, gc)
    decreases 2 * (cursor % PAGES_PER_BLK) + if cursor / PAGES_PER_BLK == gc then 1 else 0
  {
    var vt := Choice(counts, list, cursor, c1, c2, c3);
    if vt == VC_MAX || counts[vt] > MOST_LIVE then Ending(VC_MAX, cursor, gc, list)
    else
      var count := counts[vt];
      if cursor / PAGES_PER_BLK != gc && !Opens(cursor, count) then
        Ending(vt, CursorAt(cursor, gc, count), gc, Without(list, vt))
      else if gc == VC_MAX then Ending(VC_MAX, cursor, gc, list)
      else
        var list' := DataAfter(list, vt, cursor, gc, count);
        RoundCountable(counts, list, vt, cursor, gc);
        Freed(Recounted(counts, list', cursor, gc, count), list', CursorAt(cursor, gc, count), vt, c1, c2, c3)
  }

  lemma RoundCountable(counts: map<int, int>, list: seq<int>, vt: int, cursor: int, gc: int)
    requires Countable(counts, list, cursor, gc) && vt in list && gc != VC_MAX && counts[vt] <= MOST_LIVE
    requires cursor / PAGES_PER_BLK == gc || Opens(cursor, counts[vt])
    ensures var count, cursor' := counts[vt], CursorAt(cursor, gc, counts[vt]);
      var list' := DataAfter(list, vt, cursor, gc, count);
      && Countable(Recounted(counts, list', cursor, gc, count), list', cursor', vt)
      && 2 * (cursor' % PAGES_PER_BLK) + (if cursor' / PAGES_PER_BLK == vt then 1 else 0)
           < 2 * (cursor % PAGES_PER_BLK) + (if cursor / PAGES_PER_BLK == gc then 1 else 0)
  {
    WithoutFacts(list, vt);
    CursorMoves(cursor, gc, counts[vt]);
  }
}
