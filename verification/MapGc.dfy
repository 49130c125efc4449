/** Garbage collection of the map area: the copying branch of map_write
    (ATLWrapper.cpp:395-540). */
module MapGc {
  import opened Layout
  import opened SetSizes
  import opened MapState

  // Entries of the victim that lived in its first `i` pages.
  ghost function Moved(mapping: seq<int>, v: int, i: int): set<int> {
    set e | 0 <= e < |mapping| && mapping[e] != VC_MAX && mapping[e] / PAGES_PER_BLK == v
      && mapping[e] % PAGES_PER_BLK < i
  }

  // The state `s` after `i` pages of the victim `v` have been looked at.
  ghost predicate Collecting(s0: MapState, s: MapState, v: int, i: int, free: int) {
    && Inv(s0)
    && s == s0.(mapping := s.mapping, p2l := s.p2l, flash := s.flash)
    && |s.mapping| == |s0.mapping| && |s.p2l| == |s0.p2l|
    && 0 <= v < |s.count| && v != s.gcBlk && 0 <= i <= PAGES_PER_BLK
    && s.count[v] < PAGES_PER_BLK
    && free == s.gcBlk * PAGES_PER_BLK + |Moved(s0.mapping, v, i)|
    && free <= s.gcBlk * PAGES_PER_BLK + s.count[v]
    && Relocated(s0, s, v, i, free)
    && (forall x: (int, int) :: x.0 != s.off[s.gcBlk] ==> (x in s.flash <==> x in s0.flash))
    && (forall x: (int, int) :: x.0 != s.off[s.gcBlk] && x in s.flash ==> x in s0.flash && s.flash[x] == s0.flash[x])
    && (forall j :: free - s.gcBlk * PAGES_PER_BLK <= j ==> (s.off[s.gcBlk], j) !in s.flash)
  }

  ghost predicate Relocated(s0: MapState, s: MapState, v: int, i: int, free: int)
    requires Sized(s0) && Stored(s0) && Sized(s) && s.off == s0.off && |s.mapping| == |s0.mapping|
    requires s.gcBlk == s0.gcBlk
  {
    && Shifted(s0.mapping, s.mapping, Moved(s0.mapping, v, i), s.gcBlk * PAGES_PER_BLK, free)
    && (forall e :: 0 <= e < |s.mapping| && s.mapping[e] != VC_MAX ==> Preserved(s0, s, e))
    && (forall q :: 0 <= q < |s.p2l| && s.p2l[q] != VC_MAX ==>
          0 <= s.p2l[q] < |s.mapping| && s.mapping[s.p2l[q]] != VC_MAX)
  }

  // The entries in `moved` now live in [lo, hi), the others where they were.
  ghost predicate Shifted(mapping0: seq<int>, mapping: seq<int>, moved: set<int>, lo: int, hi: int)
    requires |mapping| == |mapping0|
  {
    forall e :: 0 <= e < |mapping| ==>
      if e in moved then lo <= mapping[e] < hi else mapping[e] == mapping0[e]
  }

  // Entry `e` still has its page, and the inverse table leads back to it.
  ghost predicate Preserved(s0: MapState, s: MapState, e: int)
    requires Sized(s0) && Stored(s0) && Sized(s) && s.off == s0.off && 0 <= e < |s.mapping| == |s0.mapping|
  {
    && 0 <= s.mapping[e] < |s.p2l| && s.p2l[s.mapping[e]] == e
    && Where(s, s.mapping[e]) in s.flash
    && s0.mapping[e] != VC_MAX
    && s.flash[Where(s, s.mapping[e])] == s0.flash[Where(s0, s0.mapping[e])]
  }

  lemma CollectingStarts(s: MapState, v: int)
    requires Inv(s) && 0 <= v < |s.count| && v != s.gcBlk && s.count[v] < PAGES_PER_BLK
    ensures Collecting(s, s, v, 0, s.gcBlk * PAGES_PER_BLK)
  {
  }

  // The test of the copy loop: page `i` of the victim holds a live map page.
  ghost predicate Hit(s: MapState, v: int, i: int)
    requires Sized(s) && 0 <= v < |s.count| && 0 <= i < PAGES_PER_BLK
  {
    var src := s.p2l[v * PAGES_PER_BLK + i];
    && src != VC_MAX && 0 <= src < |s.mapping|
    && s.mapping[src] == v * PAGES_PER_BLK + i
  }

  // Looking at page `i` adds its entry to the moved ones if the page is live.
  ghost predicate Steps(mapping0: seq<int>, s: MapState, v: int, i: int)
    requires Sized(s) && 0 <= v < |s.count| && 0 <= i < PAGES_PER_BLK
  {
    var src := s.p2l[v * PAGES_PER_BLK + i];
    if Hit(s, v, i) then
      src !in Moved(mapping0, v, i) && Moved(mapping0, v, i + 1) == Moved(mapping0, v, i) + {src}
    else
      Moved(mapping0, v, i + 1) == Moved(mapping0, v, i)
  }

  lemma MovedStep(s0: MapState, s: MapState, v: int, i: int, free: int)
    requires Collecting(s0, s, v, i, free) && i < PAGES_PER_BLK
    ensures Steps(s0.mapping, s, v, i)
  {
    LivesAt(s0, s, v, i, free);
    StepsFrom(s0.mapping, s, v, i);
  }

  lemma StepsFrom(mapping0: seq<int>, s: MapState, v: int, i: int)
    requires Sized(s) && 0 <= v < |s.count| && 0 <= i < PAGES_PER_BLK && |mapping0| == |s.mapping|
    requires forall e :: 0 <= e < |s.mapping| && mapping0[e] == v * PAGES_PER_BLK + i ==>
      s.mapping[e] == mapping0[e] && s.p2l[v * PAGES_PER_BLK + i] == e
    requires forall e :: 0 <= e < |s.mapping| && s.mapping[e] == v * PAGES_PER_BLK + i
                         && s.p2l[v * PAGES_PER_BLK + i] == e ==>
      mapping0[e] == s.mapping[e]
    ensures Steps(mapping0, s, v, i)
  {
  }

  lemma LivesAt(s0: MapState, s: MapState, v: int, i: int, free: int)
    requires Collecting(s0, s, v, i, free) && i < PAGES_PER_BLK
    ensures forall e :: 0 <= e < |s.mapping| && s0.mapping[e] == v * PAGES_PER_BLK + i ==>
      s.mapping[e] == s0.mapping[e] && s.p2l[v * PAGES_PER_BLK + i] == e
    ensures forall e :: 0 <= e < |s.mapping| && s.mapping[e] == v * PAGES_PER_BLK + i ==> s0.mapping[e] == s.mapping[e]
  {
  }

  ghost function At(mapping: seq<int>, q: int): set<int> {
    set e | 0 <= e < |mapping| && mapping[e] == q && q != VC_MAX
  }

  lemma MovedGrows(mapping: seq<int>, v: int, i: int)
    requires 0 <= i < PAGES_PER_BLK
    ensures Moved(mapping, v, i + 1) == Moved(mapping, v, i) + At(mapping, v * PAGES_PER_BLK + i)
    ensures Moved(mapping, v, i + 1) <= LiveIn(mapping, v)
  {
  }

  lemma MovedBound(s0: MapState, s: MapState, v: int, i: int, free: int)
    requires Collecting(s0, s, v, i, free) && i < PAGES_PER_BLK
    ensures |Moved(s0.mapping, v, i + 1)| <= s.count[v]
  {
    MovedGrows(s0.mapping, v, i);
    SubsetSize(Moved(s0.mapping, v, i + 1), LiveIn(s0.mapping, v));
  }

  ghost function Copied(s: MapState, src: int, free: int): MapState
    requires Sized(s) && 0 <= src < |s.mapping| && 0 <= free < |s.p2l| && 0 <= s.mapping[src] < |s.p2l|
    requires Where(s, s.mapping[src]) in s.flash
  {
    s.(mapping := s.mapping[src := free],
       p2l := s.p2l[free := src],
       flash := s.flash[Where(s, free) := s.flash[Where(s, s.mapping[src])]])
  }

  lemma CopyPossible(s0: MapState, s: MapState, v: int, i: int, free: int, src: int)
    requires Collecting(s0, s, v, i, free) && i < PAGES_PER_BLK && Hit(s, v, i) && src == s.p2l[v * PAGES_PER_BLK + i]
    ensures 0 <= src < |s.mapping| && 0 <= free < |s.p2l| && 0 <= s.mapping[src] < |s.p2l|
    ensures Where(s, s.mapping[src]) in s.flash && Where(s, free) !in s.flash
  {
  }

  lemma FreeBound(s0: MapState, s: MapState, v: int, i: int, free: int)
    requires Collecting(s0, s, v, i, free) && i < PAGES_PER_BLK && Hit(s, v, i)
    ensures free < s.gcBlk * PAGES_PER_BLK + s.count[v] && free / PAGES_PER_BLK == s.gcBlk
  {
    MovedStep(s0, s, v, i, free);
    MovedBound(s0, s, v, i, free);
  }

  lemma CopyRelocated(s0: MapState, s: MapState, v: int, i: int, free: int, src: int)
    requires Sized(s0) && Stored(s0) && Sized(s) && s.off == s0.off && |s.mapping| == |s0.mapping|
    requires s.gcBlk == s0.gcBlk
    requires Relocated(s0, s, v, i, free) && 0 <= i < PAGES_PER_BLK && s.gcBlk * PAGES_PER_BLK <= free < VC_MAX
    requires 0 <= src < |s.mapping| && 0 <= free < |s.p2l| && 0 <= s.mapping[src] < |s.p2l|
    requires Where(s, s.mapping[src]) in s.flash && Where(s, free) !in s.flash
    requires forall p, q :: 0 <= p < |s.p2l| && 0 <= q < |s.p2l| && Where(s, p) == Where(s, q) ==> p == q
    requires src !in Moved(s0.mapping, v, i) && Moved(s0.mapping, v, i + 1) == Moved(s0.mapping, v, i) + {src}
    ensures Relocated(s0, Copied(s, src, free), v, i + 1, free + 1)
  {
    var s' := Copied(s, src, free);
    assert Preserved(s0, s, src);
    forall e | 0 <= e < |s.mapping| && s'.mapping[e] != VC_MAX
      ensures Preserved(s0, s', e)
    {
      CopyKeeps(s0, s, free, src, e);
    }
    ShiftedOne(s0.mapping, s.mapping, Moved(s0.mapping, v, i), s.gcBlk * PAGES_PER_BLK, free, src);
    assert Shifted(s0.mapping, s'.mapping, Moved(s0.mapping, v, i + 1), s.gcBlk * PAGES_PER_BLK, free + 1);
    forall q | 0 <= q < |s.p2l| && s'.p2l[q] != VC_MAX
      ensures 0 <= s'.p2l[q] < |s.mapping| && s'.mapping[s'.p2l[q]] != VC_MAX
    {
      if q != free { assert s'.p2l[q] == s.p2l[q]; }
    }
  }

  lemma ShiftedOne(mapping0: seq<int>, mapping: seq<int>, moved: set<int>, lo: int, hi: int, src: int)
    requires |mapping| == |mapping0| && Shifted(mapping0, mapping, moved, lo, hi) && lo <= hi
    requires 0 <= src < |mapping| && src !in moved
    ensures Shifted(mapping0, mapping[src := hi], moved + {src}, lo, hi + 1)
  {
  }

  lemma CopyKeeps(s0: MapState, s: MapState, free: int, src: int, e: int)
    requires Sized(s0) && Stored(s0) && Sized(s) && s.off == s0.off && |s.mapping| == |s0.mapping|
    requires 0 <= src < |s.mapping| && 0 <= e < |s.mapping| && 0 <= free < |s.p2l|
    requires Preserved(s0, s, src) && (e != src ==> Preserved(s0, s, e)) && Where(s, free) !in s.flash
    requires forall p, q :: 0 <= p < |s.p2l| && 0 <= q < |s.p2l| && Where(s, p) == Where(s, q) ==> p == q
    ensures Preserved(s0, Copied(s, src, free), e)
  {
  }

  lemma CopyMoves(s0: MapState, s: MapState, v: int, i: int, free: int, src: int)
    requires Collecting(s0, s, v, i, free) && i < PAGES_PER_BLK && Hit(s, v, i) && src == s.p2l[v * PAGES_PER_BLK + i]
    requires 0 <= src < |s.mapping| && 0 <= free < |s.p2l| && 0 <= s.mapping[src] < |s.p2l|
    requires Where(s, s.mapping[src]) in s.flash
    ensures Relocated(s0, Copied(s, src, free), v, i + 1, free + 1)
    ensures |Moved(s0.mapping, v, i + 1)| == |Moved(s0.mapping, v, i)| + 1
  {
    hide Moved;
    CopyPossible(s0, s, v, i, free, src);
    MovedStep(s0, s, v, i, free);
    WhereInjective(s);
    CopyRelocated(s0, s, v, i, free, src);
  }

  lemma CopyOk(s0: MapState, s: MapState, v: int, i: int, free: int, src: int)
    requires Collecting(s0, s, v, i, free) && i < PAGES_PER_BLK && Hit(s, v, i) && src == s.p2l[v * PAGES_PER_BLK + i]
    requires 0 <= src < |s.mapping| && 0 <= free < |s.p2l| && 0 <= s.mapping[src] < |s.p2l|
    requires Where(s, s.mapping[src]) in s.flash
    ensures Collecting(s0, Copied(s, src, free), v, i + 1, free + 1)
  {
    FreeBound(s0, s, v, i, free);
    CopyMoves(s0, s, v, i, free, src);
    assert Where(s, free) == (s.off[s.gcBlk], free - s.gcBlk * PAGES_PER_BLK);
  }

  lemma SkipOk(s0: MapState, s: MapState, v: int, i: int, free: int)
    requires Collecting(s0, s, v, i, free) && i < PAGES_PER_BLK && !Hit(s, v, i)
    ensures Collecting(s0, s, v, i + 1, free)
  {
    MovedStep(s0, s, v, i, free);
  }

  // Once as many pages as the victim has live ones are copied, none is left.
  lemma AllMoved(s0: MapState, s: MapState, v: int, i: int, free: int)
    requires Collecting(s0, s, v, i, free)
    requires i == PAGES_PER_BLK || free == s.gcBlk * PAGES_PER_BLK + s.count[v]
    ensures Moved(s0.mapping, v, i) == LiveIn(s0.mapping, v)
    ensures free == s.gcBlk * PAGES_PER_BLK + s.count[v]
  {
    if i == PAGES_PER_BLK {
      assert Moved(s0.mapping, v, i) == LiveIn(s0.mapping, v);
    } else {
      SubsetSize(Moved(s0.mapping, v, i), LiveIn(s0.mapping, v));
    }
  }

  // ------------------------------------------------ giving the victim back

  ghost function Erased(flash: map<(int, int), Page>, b: int): map<(int, int), Page> {
    map x: (int, int) | x in flash && x.0 != b :: flash[x]
  }

  // The victim becomes the empty block; if there is a free block, the two
  // change places.
  ghost function Reclaimed(s: MapState, v: int, free: int): MapState
    requires Sized(s) && 0 <= v < |s.count| && 0 <= s.off[v] < |s.vcount|
    requires s.freeList != [] ==> 0 <= s.freeList[0] < |s.vcount|
  {
    var s1 := s.(count := s.count[v := VC_MAX][s.gcBlk := s.count[v]], gcBlk := v, cur := free);
    if s.freeList == [] then s1.(flash := Erased(s.flash, s.off[v]))
    else
      var sw := s.freeList[0];
      s1.(freeList := s.freeList[1..] + [s.off[v]],
          vcount := s.vcount[s.off[v] := 0][sw := VC_MAX],
          off := s.off[v := sw],
          flash := if s.vcount[sw] == 0 then Erased(s.flash, sw) else s.flash)
  }

  lemma ReclaimedCounted(s0: MapState, s: MapState, v: int, i: int, free: int)
    requires Collecting(s0, s, v, i, free) && s.freeBlks == 0
    requires Moved(s0.mapping, v, i) == LiveIn(s0.mapping, v) && free == s.gcBlk * PAGES_PER_BLK + s.count[v]
    ensures forall b :: 0 <= b < |s.count| && b != v ==>
      LiveIn(s.mapping, b) == if b == s.gcBlk then LiveIn(s0.mapping, v) else LiveIn(s0.mapping, b)
    ensures forall e :: 0 <= e < |s.mapping| && s.mapping[e] != VC_MAX ==> s.mapping[e] / PAGES_PER_BLK != v
  {
  }

  lemma CollectingPlaced(s0: MapState, s: MapState, v: int, i: int, free: int)
    requires Collecting(s0, s, v, i, free)
    ensures Placed(s)
  {
  }

  lemma ReclaimedPlaced(s: MapState, v: int, free: int)
    requires Sized(s) && Placed(s) && 0 <= v < |s.count|
    ensures 0 <= s.off[v] < |s.vcount|
    ensures s.freeList != [] ==> 0 <= s.freeList[0] < |s.vcount|
    ensures Placed(Reclaimed(s, v, free))
    ensures forall j :: (Reclaimed(s, v, free).off[v], j) !in Reclaimed(s, v, free).flash
  {
    assert s.off[v] in s.off;
    if s.freeList != [] {
      assert s.freeList[0] in s.freeList;
      SwappedPlaced(s, v, free);
    }
  }

  lemma SwappedPlaced(s: MapState, v: int, free: int)
    requires Sized(s) && Placed(s) && 0 <= v < |s.count| && s.freeList != []
    requires 0 <= s.off[v] < |s.vcount| && 0 <= s.freeList[0] < |s.vcount| && s.off[v] in s.off
    requires s.freeList[0] in s.freeList
    ensures Placed(Reclaimed(s, v, free))
    ensures forall j :: (Reclaimed(s, v, free).off[v], j) !in Reclaimed(s, v, free).flash
  {
    var s' := Reclaimed(s, v, free);
    var sw := s.freeList[0];
    assert forall f :: f in s'.freeList ==> f == s.off[v] || (f in s.freeList && f != sw);
    assert forall b :: b in s'.off ==> b == sw || (b in s.off && b != s.off[v]);
  }

  lemma ReclaimedStored(s0: MapState, s: MapState, v: int, i: int, free: int)
    requires Collecting(s0, s, v, i, free) && s.freeBlks == 0 && Placed(s) && free / PAGES_PER_BLK == s.gcBlk
    requires forall e :: 0 <= e < |s.mapping| && s.mapping[e] != VC_MAX ==> s.mapping[e] / PAGES_PER_BLK != v
    requires 0 <= s.off[v] < |s.vcount| && (s.freeList != [] ==> 0 <= s.freeList[0] < |s.vcount|)
    ensures Sized(Reclaimed(s, v, free)) && Stored(Reclaimed(s, v, free))
    ensures forall q :: Reclaimed(s, v, free).cur <= q < End(Reclaimed(s, v, free)) && q < |s.p2l| ==>
      Where(Reclaimed(s, v, free), q) !in Reclaimed(s, v, free).flash
    ensures forall e :: 0 <= e < |s.mapping| && s.mapping[e] != VC_MAX ==>
      var s' := Reclaimed(s, v, free);
      && Where(s', s.mapping[e]) in s'.flash && Where(s, s.mapping[e]) in s.flash
      && s'.flash[Where(s', s.mapping[e])] == s.flash[Where(s, s.mapping[e])]
  {
    var s' := Reclaimed(s, v, free);
    forall e | 0 <= e < |s.mapping| && s.mapping[e] != VC_MAX
      ensures Where(s', s.mapping[e]) == Where(s, s.mapping[e]) && Where(s', s.mapping[e]) in s'.flash
      ensures s'.flash[Where(s', s.mapping[e])] == s.flash[Where(s, s.mapping[e])]
    {
      var b := s.mapping[e] / PAGES_PER_BLK;
      assert b != v && s.off[b] in s.off && s.off[b] != s.off[v];
    }
    forall q | s'.cur <= q < End(s') && q < |s.p2l|
      ensures Where(s', q) !in s'.flash
    {
      assert q / PAGES_PER_BLK == s.gcBlk && Where(s', q) == Where(s, q);
    }
  }

  lemma ReclaimedOk(s0: MapState, s: MapState, words: nat, v: int, i: int, free: int)
    requires Collecting(s0, s, v, i, free) && s.freeBlks == 0
    requires Moved(s0.mapping, v, i) == LiveIn(s0.mapping, v) && free == s.gcBlk * PAGES_PER_BLK + s.count[v]
    ensures 0 <= s.off[v] < |s.vcount| && (s.freeList != [] ==> 0 <= s.freeList[0] < |s.vcount|)
    ensures Ready(Reclaimed(s, v, free))
    ensures Contents(Reclaimed(s, v, free), words) == Contents(s0, words)
  {
    CollectingPlaced(s0, s, v, i, free);
    ReclaimedPlaced(s, v, free);
    ReclaimedCounted(s0, s, v, i, free);
    assert free / PAGES_PER_BLK == s.gcBlk;
    ReclaimedStored(s0, s, v, i, free);
    var s' := Reclaimed(s, v, free);
    assert Counted(s');
    forall e | 0 <= e < |s.mapping|
      ensures Content(s', words, e) == Content(s0, words, e)
    {
    }
  }
}
