/** Copying the live pages of a victim block into free superpages
    (ATLWrapper.cpp:2113-2577), on values. */
module GcModel {
  import opened Layout
  import opened SetSizes
  import opened FlashState

  // One victim: where the copies go and what must not change.  The copies fill
  // block `wb` behind page `r`, then the empty block `gc` from its page 0;
  // `r == 127` sends them to `gc` at once.
  datatype Run = Run(s0: Flash, vt: Blk, wb: Blk, r: int, gc: Blk, tracked: set<Blk>)

  ghost function DestBlk(u: Run, k: int): Blk {
    if u.r + 1 + k < PAGES_PER_BLK then u.wb else u.gc
  }

  ghost function DestPage(u: Run, k: int): int {
    if u.r + 1 + k < PAGES_PER_BLK then u.r + 1 + k else u.r + 1 + k - PAGES_PER_BLK
  }

  // The superpages still to be written are erased.
  ghost predicate Ahead(u: Run, s: Flash, k: int) {
    && (u.r + k < PAGES_PER_BLK - 1 ==> Blank(s, u.wb, u.r + k + 1))
    && Blank(s, u.gc, if u.r + k + 1 < PAGES_PER_BLK then 0 else u.r + k + 1 - PAGES_PER_BLK)
  }

  // Until it is opened, the empty block keeps its count; opening it counts zero.
  ghost predicate Unopened(u: Run, s: Flash, k: int) {
    u.r + k < PAGES_PER_BLK && u.gc in u.s0.vcount ==>
      u.gc in s.vcount && (s.vcount[u.gc] == u.s0.vcount[u.gc] || s.vcount[u.gc] == 0)
  }

  // No block but the victim becomes less exact.
  ghost predicate StillExact(u: Run, s: Flash)
    requires Shaped(u.s0) && Shaped(s)
  {
    forall b :: b != u.vt && Exact(u.s0, b) ==> Exact(s, b)
  }

  // The blocks whose counts are kept: `gc` joins them when it is opened.
  ghost function Tracked(u: Run, k: int): set<Blk> {
    if u.r + k < PAGES_PER_BLK then u.tracked else u.tracked + {u.gc}
  }

  ghost predicate Kept(s: Flash, blks: set<Blk>)
    requires Shaped(s) && Placed(s)
  {
    forall b :: b in blks ==> Tidy(s, b)
  }

  // The `n`-th page of a block in the order of the scan.
  ghost function Order(p: Place): int
    requires p.Nand?
  {
    p.page * SLOTS + p.slot
  }

  // Of the victim's first `n` pages exactly those in `pend` are still mapped
  // there, and `data` holds their contents.
  ghost predicate Gathered(s: Flash, vt: Blk, n: int, pend: seq<int>, data: seq<Data>)
    requires Shaped(s) && Placed(s)
  {
    && NoDup(pend) && |pend| == |data|
    && (forall i :: 0 <= i < |pend| ==> pend[i] in LiveIn(s.table, vt) && Resolve(s, pend[i]) == Stored(data[i]))
    && (forall l :: l in LiveIn(s.table, vt) ==> (l in pend <==> Order(s.table[l]) < n))
  }

  ghost predicate RunOk(u: Run) {
    && u.vt !in u.tracked && u.vt != u.gc && u.gc !in u.tracked && 0 <= u.r < PAGES_PER_BLK
    && (u.r < PAGES_PER_BLK - 1 ==> u.wb in u.tracked)
    && Shaped(u.s0) && Placed(u.s0) && |u.s0.table| <= INVALID_LPN
  }

  // After `k` superpages.
  ghost predicate Going(u: Run, s: Flash, n: int, k: int, pend: seq<int>, data: seq<Data>) {
    && RunOk(u) && Shaped(s) && Placed(s) && SameMeaning(u.s0, s)
    && 0 <= n <= BLK_LPAGES && 0 <= k
    && Carried(s, u.vt) && Legible(s, u.vt, PAGES_PER_BLK) && Gathered(s, u.vt, n, pend, data)
    && |LiveIn(s.table, u.vt)| + k * SLOTS == |LiveIn(u.s0.table, u.vt)| <= BLK_LPAGES - SLOTS
    && Ahead(u, s, k) && Kept(s, Tracked(u, k))
    && Others(u, s) && Programmed(u, s, k) && Unopened(u, s, k) && StillExact(u, s)
  }

  ghost predicate Programmed(u: Run, s: Flash, k: int) {
    forall j :: 0 <= j < k ==> (DestBlk(u, j), DestPage(u, j)) in s.nand
  }

  // What lies outside the victim stays where it is.
  ghost predicate Others(u: Run, s: Flash) {
    && |s.table| == |u.s0.table| && (Injective(u.s0.table) ==> Injective(s.table))
    && (forall l :: 0 <= l < |s.table| && l !in LiveIn(u.s0.table, u.vt) ==> s.table[l] == u.s0.table[l])
    && (forall l :: 0 <= l < |s.table| && l in LiveIn(u.s0.table, u.vt) ==>
          s.table[l].Nand? && (s.table[l].blk == u.vt || s.table[l].blk == u.gc
            || (u.r < PAGES_PER_BLK - 1 && s.table[l].blk == u.wb)))
    && (forall x :: x in u.s0.nand ==> x in s.nand && s.nand[x] == u.s0.nand[x])
    && (forall x :: x in s.nand && x !in u.s0.nand ==>
          0 <= x.1 && (x.0 == u.gc || (u.r < PAGES_PER_BLK - 1 && x.0 == u.wb)))
    && u.s0.bits <= s.bits
    && (forall x :: x in s.bits && x !in u.s0.bits ==> x.Nand? && (x.blk, x.page) in s.nand
                                                       && (x.blk, x.page) !in u.s0.nand)
    && (forall b :: b !in u.tracked && b != u.gc ==>
          (b in s.vcount <==> b in u.s0.vcount) && (b in s.vcount ==> s.vcount[b] == u.s0.vcount[b]))
  }

  lemma Starts(u: Run)
    requires RunOk(u) && Carried(u.s0, u.vt) && Legible(u.s0, u.vt, PAGES_PER_BLK) && Ahead(u, u.s0, 0)
    requires Kept(u.s0, u.tracked)
    requires |LiveIn(u.s0.table, u.vt)| <= BLK_LPAGES - SLOTS
    ensures Going(u, u.s0, 0, 0, [], [])
  {
  }

  // ------------------------------------------------ one page of the victim

  // The test made after a read: the address in the spare area is mapped here.
  ghost predicate Live(s: Flash, p: Place)
    requires Shaped(s) && InBlock(p) && (p.blk, p.page) in s.nand
  {
    var l := Effective(CellAt(s, p));
    l != INVALID_LPN && 0 <= l < |s.table| && s.table[l] == p
  }

  // A page one of whose bits is set has been programmed.
  lemma BitProgrammed(u: Run, s: Flash, n: int, k: int, pend: seq<int>, data: seq<Data>, p: Place)
    requires Going(u, s, n, k, pend, data) && InBlock(p) && p.blk == u.vt && p in s.bits
    ensures (p.blk, p.page) in s.nand
  {
  }

  lemma ReadLive(u: Run, s: Flash, n: int, k: int, pend: seq<int>, data: seq<Data>, p: Place)
    requires Going(u, s, n, k, pend, data) && InBlock(p) && p.blk == u.vt && (p.blk, p.page) in s.nand
    ensures |s.nand[(p.blk, p.page)]| == SLOTS
    ensures Live(s, p) <==> exists l :: 0 <= l < |s.table| && s.table[l] == p
    ensures Live(s, p) ==> p in s.bits
  {
  }

  lemma Skip(u: Run, s: Flash, n: int, k: int, pend: seq<int>, data: seq<Data>, p: Place)
    requires Going(u, s, n, k, pend, data) && InBlock(p) && p.blk == u.vt && Order(p) == n
    requires forall l :: 0 <= l < |s.table| ==> s.table[l] != p
    ensures Going(u, s, n + 1, k, pend, data)
  {
  }

  // What the test says about a half, for one that has not been looked at yet.
  lemma HalfLive(u: Run, s: Flash, n: int, k: int, pend: seq<int>, data: seq<Data>, p: Place)
    requires Going(u, s, n, k, pend, data) && InBlock(p) && p.blk == u.vt && (p.blk, p.page) in s.nand
    ensures Shaped(s) && Placed(s)
    ensures Live(s, p) ==> var l := Effective(CellAt(s, p));
      0 <= l < |s.table| && s.table[l] == p && Resolve(s, l) == Stored(CellAt(s, p).data)
    ensures !Live(s, p) ==> forall l :: 0 <= l < |s.table| ==> s.table[l] != p
  {
  }

  // Entries change only by leaving the part of the victim that was looked at.
  ghost predicate OnlyMoved(t0: seq<Place>, t: seq<Place>, vt: Blk, n: int) {
    && |t| == |t0|
    && forall l :: 0 <= l < |t| && t[l] != t0[l] ==>
         t0[l].Nand? && t0[l].blk == vt && Order(t0[l]) < n && t[l].Nand? && t[l].blk != vt
  }

  lemma MovedOut(u: Run, s: Flash, n: int, k: int, pend: seq<int>, data: seq<Data>, t: seq<Place>)
    requires Going(u, s, n, k, pend, data) && pend != [] && Repointed(s.table, t, pend, DestBlk(u, k), DestPage(u, k))
    ensures OnlyMoved(s.table, t, u.vt, n)
  {
  }

  lemma GoingFacts(u: Run, s: Flash, n: int, k: int, pend: seq<int>, data: seq<Data>)
    requires Going(u, s, n, k, pend, data)
    ensures Shaped(u.s0) && Placed(u.s0) && Shaped(s) && Placed(s) && SameMeaning(u.s0, s)
  {
  }

  // A half behind the part looked at keeps its state while other halves move.
  lemma StillThere(u: Run, s: Flash, s': Flash, p: Place, n: int)
    requires Shaped(u.s0) && Placed(u.s0) && Shaped(s) && Placed(s) && SameMeaning(u.s0, s)
    requires Shaped(s') && Placed(s') && SameMeaning(u.s0, s')
    requires OnlyMoved(s.table, s'.table, u.vt, n) && p.Nand? && p.blk == u.vt && Order(p) >= n
    ensures forall l :: 0 <= l < |s.table| ==>
      (s.table[l] == p <==> s'.table[l] == p) && Resolve(s, l) == Resolve(s', l)
  {
  }

  // A page without a set bit has no live half.
  lemma SkipPair(u: Run, s: Flash, n: int, k: int, pend: seq<int>, data: seq<Data>, p: Place, q: Place)
    requires Going(u, s, n, k, pend, data) && InBlock(p) && InBlock(q) && p.blk == q.blk == u.vt
    requires Order(p) == n && Order(q) == n + 1 && p !in s.bits && q !in s.bits
    ensures Going(u, s, n + 2, k, pend, data)
  {
    hide Kept, Others, Ahead, Programmed, Unopened, StillExact, SameMeaning, Legible;
  }

  lemma OrderInjective(p: Place, q: Place)
    requires p.Nand? && q.Nand? && p.blk == q.blk
    ensures InBlock(p) && InBlock(q) && Order(p) == Order(q) ==> p == q
  {
  }

  lemma Push(u: Run, s: Flash, n: int, k: int, pend: seq<int>, data: seq<Data>, p: Place, l: int, d: Data)
    requires Going(u, s, n, k, pend, data) && InBlock(p) && p.blk == u.vt && Order(p) == n
    requires 0 <= l < |s.table| && s.table[l] == p && Resolve(s, l) == Stored(d)
    ensures Going(u, s, n + 1, k, pend + [l], data + [d])
    ensures |pend| + 1 + k * SLOTS <= |LiveIn(u.s0.table, u.vt)|
  {
    hide Kept, Others, Ahead, Programmed, Unopened, StillExact, SameMeaning, Legible;
    var live := LiveIn(s.table, u.vt);
    assert l in live && l !in pend;
    forall m | m in live
      ensures m in pend + [l] <==> Order(s.table[m]) < n + 1
    {
      assert InBlock(s.table[m]) && InBlock(s.table[l]);
      OrderInjective(s.table[m], p);
      if s.table[m] == p {
        assert Effective(CellAt(s, s.table[m])) == m && Effective(CellAt(s, s.table[l])) == l;
      }
    }
    PendFits(s, u.vt, pend + [l]);
  }

  lemma PendFits(s: Flash, vt: Blk, pend: seq<int>)
    requires NoDup(pend) && forall i :: 0 <= i < |pend| ==> pend[i] in LiveIn(s.table, vt)
    ensures Members(pend) <= LiveIn(s.table, vt) && |Members(pend)| == |pend| <= |LiveIn(s.table, vt)|
  {
    MembersSize(pend);
    SubsetSize(Members(pend), LiveIn(s.table, vt));
  }

  // Once the whole block has been looked at, or as many pages as it has live
  // ones have been copied, all its live pages are in the buffer or gone.
  lemma AllGathered(u: Run, s: Flash, n: int, k: int, pend: seq<int>, data: seq<Data>)
    requires Going(u, s, n, k, pend, data)
    requires n == BLK_LPAGES || k * SLOTS + |pend| == |LiveIn(u.s0.table, u.vt)|
    ensures LiveIn(s.table, u.vt) == Members(pend) && k * SLOTS + |pend| == |LiveIn(u.s0.table, u.vt)|
  {
    PendFits(s, u.vt, pend);
    if n == BLK_LPAGES {
      forall l | l in LiveIn(s.table, u.vt)
        ensures l in Members(pend)
      {
        assert InBlock(s.table[l]);
      }
    } else {
      SubsetSize(Members(pend), LiveIn(s.table, u.vt));
    }
  }

  // ------------------------------------------------ one superpage

  lemma DestFree(u: Run, s: Flash, n: int, k: int, pend: seq<int>, data: seq<Data>)
    requires Going(u, s, n, k, pend, data) && pend != []
    ensures k < PAGES_PER_BLK - 1 && 0 <= DestPage(u, k) < PAGES_PER_BLK
    ensures (DestBlk(u, k), DestPage(u, k)) !in s.nand && DestBlk(u, k) != u.vt
  {
    PendFits(s, u.vt, pend);
  }

  // The pages that fit behind page `r` of the block written.
  function Fitting(r: int, count: int): int {
    if count < SLOTS * (PAGES_PER_BLK - 1 - r) then count else SLOTS * (PAGES_PER_BLK - 1 - r)
  }

  // Of `n` pages copied each block counts those it has taken: the block written
  // is filled before the empty one is opened.
  ghost predicate Dealt(u: Run, s: Flash, n: int) {
    && (forall b :: b in u.s0.vcount && b != u.gc ==>
          b in s.vcount && s.vcount[b] == u.s0.vcount[b] + if b == u.wb then Fitting(u.r, n) else 0)
    && (n > Fitting(u.r, n) ==> u.gc in s.vcount && s.vcount[u.gc] == n - Fitting(u.r, n))
  }

  lemma DealtOne(u: Run, s: Flash, s': Flash, k: int, m: int)
    requires 0 <= u.r < PAGES_PER_BLK && 0 <= k && 0 < m <= SLOTS && Dealt(u, s, k * SLOTS) && Opened(u, s, k)
    requires u.r + 1 + k < PAGES_PER_BLK ==> u.wb != u.gc
    requires DestBlk(u, k) in s.vcount && s'.vcount == s.vcount[DestBlk(u, k) := s.vcount[DestBlk(u, k)] + m]
    ensures Dealt(u, s', k * SLOTS + m)
  {
  }

  lemma DealtOpens(u: Run, s: Flash, k: int)
    requires 0 <= u.r && u.r + k == PAGES_PER_BLK - 1 && Dealt(u, s, k * SLOTS)
    ensures Dealt(u, s.(vcount := s.vcount[u.gc := 0]), k * SLOTS)
  {
  }

  // The victim's pages fit behind page `r` of the block written.
  ghost predicate Suffices(u: Run) {
    u.r + (|LiveIn(u.s0.table, u.vt)| + SLOTS - 1) / SLOTS < PAGES_PER_BLK
  }

  lemma NotFull(u: Run, s: Flash, n: int, k: int, pend: seq<int>, data: seq<Data>)
    requires Going(u, s, n, k, pend, data) && pend != [] && Suffices(u)
    ensures u.r + k < PAGES_PER_BLK - 1 && DestBlk(u, k) == u.wb != u.gc
  {
    PendFits(s, u.vt, pend);
  }

  // The block the superpage goes to is counted; `gc` has just been opened.
  ghost predicate Opened(u: Run, s: Flash, k: int) {
    u.r + k == PAGES_PER_BLK - 1 ==> u.gc in s.vcount && s.vcount[u.gc] == 0
  }

  lemma GcBlockCounts(u: Run, s: Flash, n: int, k: int, pend: seq<int>, data: seq<Data>)
    requires Going(u, s, n, k, pend, data) && Opened(u, s, k)
    ensures Tidy(s, DestBlk(u, k))
  {
  }

  // `k` superpages have been written and the buffer is empty.
  ghost predicate After(u: Run, s: Flash, k: int) {
    && RunOk(u) && Shaped(s) && Placed(s) && SameMeaning(u.s0, s) && 0 <= k
    && Carried(s, u.vt) && Legible(s, u.vt, PAGES_PER_BLK) && Ahead(u, s, k) && Kept(s, Tracked(u, k)) && Others(u, s)
    && Programmed(u, s, k) && Unopened(u, s, k) && StillExact(u, s)
  }

  lemma RunFacts(u: Run, s: Flash, n: int, k: int, pend: seq<int>, data: seq<Data>)
    requires Going(u, s, n, k, pend, data)
    ensures RunOk(u) && 0 <= k
  {
  }

  lemma Gatherings(u: Run, s: Flash, n: int, k: int, pend: seq<int>, data: seq<Data>)
    requires Going(u, s, n, k, pend, data)
    ensures NoDup(pend) && forall i :: 0 <= i < |pend| ==> 0 <= pend[i] < |s.table|
  {
  }

  lemma AfterCount(u: Run, s: Flash, k: int)
    requires After(u, s, k + 1) && 0 <= k
    ensures DestBlk(u, k) in s.vcount && 0 <= s.vcount[DestBlk(u, k)] <= BLK_LPAGES
  {
    assert DestBlk(u, k) in Tracked(u, k + 1);
    CountFits(u, s, k);
  }

  lemma GoingAfter(u: Run, s: Flash, n: int, k: int, pend: seq<int>, data: seq<Data>)
    requires Going(u, s, n, k, pend, data)
    ensures After(u, s, k)
  {
  }

  // Going on with an empty buffer.
  lemma Resume(u: Run, s: Flash, n: int, k: int)
    requires After(u, s, k) && Gathered(s, u.vt, n, [], []) && 0 <= n <= BLK_LPAGES
    requires |LiveIn(s.table, u.vt)| + k * SLOTS == |LiveIn(u.s0.table, u.vt)| <= BLK_LPAGES - SLOTS
    ensures Going(u, s, n, k, [], [])
  {
  }

  lemma Sizes(u: Run, s: Flash, n: int, k: int, pend: seq<int>, data: seq<Data>)
    requires Going(u, s, n, k, pend, data)
    ensures |LiveIn(s.table, u.vt)| + k * SLOTS == |LiveIn(u.s0.table, u.vt)| <= BLK_LPAGES - SLOTS
    ensures 0 <= n <= BLK_LPAGES && |pend| == |data|
  {
  }

  // One superpage takes the pages gathered so far.
  lemma Flush(u: Run, s: Flash, s': Flash, n: int, k: int, pend: seq<int>, data: seq<Data>, cells: seq<Cell>)
    requires Going(u, s, n, k, pend, data) && Opened(u, s, k) && pend != []
    requires Packed(s, pend, cells) && Relocated(s, s', pend, DestBlk(u, k), DestPage(u, k), cells)
    ensures After(u, s', k + 1)
    ensures |LiveIn(s'.table, u.vt)| == |LiveIn(s.table, u.vt)| - |pend|
    ensures Gathered(s', u.vt, n, [], [])
  {
    hide Kept, Others, Ahead, Legible, Programmed, Unopened, StillExact;
    DestFree(u, s, n, k, pend, data);
    PendFits(s, u.vt, pend);
    FlushMeaning(u, s, s', n, pend, DestBlk(u, k), DestPage(u, k), cells);
    FlushKept(u, s, s', n, k, pend, data, cells);
    FlushOthers(u, s, s', n, k, pend, data, cells);
    FlushExact(u, s, s', n, k, pend, data, cells);
  }

  lemma FlushExact(u: Run, s: Flash, s': Flash, n: int, k: int, pend: seq<int>, data: seq<Data>, cells: seq<Cell>)
    requires Going(u, s, n, k, pend, data) && Members(pend) <= LiveIn(s.table, u.vt) && DestBlk(u, k) != u.vt
    requires Packed(s, pend, cells) && Relocated(s, s', pend, DestBlk(u, k), DestPage(u, k), cells)
    requires (DestBlk(u, k), DestPage(u, k)) !in s.nand && Shaped(s') && Placed(s')
    ensures StillExact(u, s')
  {
    hide Exact, Packed, Relocated, Kept, Others, Ahead, Programmed, Unopened, Gathered, SameMeaning, Shaped,
         Placed, LiveIn;
    forall b | b != u.vt && Exact(u.s0, b)
      ensures Exact(s', b)
    {
      RelocatedExact(s, s', pend, u.vt, DestBlk(u, k), DestPage(u, k), cells, b);
    }
  }

  lemma FlushMeaning(u: Run, s: Flash, s': Flash, n: int, pend: seq<int>, b: Blk, p: int, cells: seq<Cell>)
    requires Shaped(s) && Placed(s) && Packed(s, pend, cells) && Relocated(s, s', pend, b, p, cells)
    requires (b, p) !in s.nand && 0 <= p < PAGES_PER_BLK && b != u.vt && Members(pend) <= LiveIn(s.table, u.vt)
    requires Carried(s, u.vt) && forall l :: l in LiveIn(s.table, u.vt) ==> (l in pend <==> Order(s.table[l]) < n)
    requires Shaped(u.s0) && Placed(u.s0) && SameMeaning(u.s0, s)
    ensures Shaped(s') && Placed(s') && SameMeaning(u.s0, s') && Carried(s', u.vt)
    ensures |LiveIn(s'.table, u.vt)| == |LiveIn(s.table, u.vt)| - |pend|
    ensures Gathered(s', u.vt, n, [], [])
  {
    RelocatedPlaced(s, s', pend, b, p, cells);
    RelocatedLive(s.table, s'.table, pend, u.vt, b, p, u.vt);
    RelocatedCarried(s, s', pend, u.vt, b, p, cells, u.vt);
  }

  lemma FlushKept(u: Run, s: Flash, s': Flash, n: int, k: int, pend: seq<int>, data: seq<Data>, cells: seq<Cell>)
    requires Going(u, s, n, k, pend, data) && Opened(u, s, k) && pend != [] && DestBlk(u, k) != u.vt
    requires Packed(s, pend, cells) && Relocated(s, s', pend, DestBlk(u, k), DestPage(u, k), cells)
    requires (DestBlk(u, k), DestPage(u, k)) !in s.nand && Members(pend) <= LiveIn(s.table, u.vt)
    requires Shaped(s') && Placed(s')
    ensures Kept(s', Tracked(u, k + 1))
  {
    hide Others, Ahead, Legible, SameMeaning, Gathered, Relocated;
    var b, p := DestBlk(u, k), DestPage(u, k);
    GcBlockCounts(u, s, n, k, pend, data);
    forall c | c in Tracked(u, k + 1)
      ensures Tidy(s', c)
    {
      assert c == b || c in Tracked(u, k);
      KeptOne(s, s', pend, u.vt, b, p, cells, c);
    }
  }

  lemma KeptOne(s: Flash, s': Flash, pend: seq<int>, vt: Blk, b: Blk, p: int, cells: seq<Cell>, c: Blk)
    requires Shaped(s) && Placed(s) && Packed(s, pend, cells) && Relocated(s, s', pend, b, p, cells)
    requires (b, p) !in s.nand && b != vt && Members(pend) <= LiveIn(s.table, vt)
    requires Shaped(s') && Placed(s') && Tidy(s, c) && c != vt
    ensures Tidy(s', c)
  {
    RelocatedLive(s.table, s'.table, pend, vt, b, p, c);
    RelocatedCarried(s, s', pend, vt, b, p, cells, c);
  }

  lemma FlushOthers(u: Run, s: Flash, s': Flash, n: int, k: int, pend: seq<int>, data: seq<Data>, cells: seq<Cell>)
    requires Going(u, s, n, k, pend, data) && Members(pend) <= LiveIn(s.table, u.vt)
    requires Relocated(s, s', pend, DestBlk(u, k), DestPage(u, k), cells)
    requires (DestBlk(u, k), DestPage(u, k)) !in s.nand
    ensures Legible(s', u.vt, PAGES_PER_BLK) && Ahead(u, s', k + 1)
    ensures Others(u, s') && Programmed(u, s', k + 1) && Unopened(u, s', k + 1)
  {
    hide Kept, Legible, Shaped, Resolve;
    Gatherings(u, s, n, k, pend, data);
    RepointedInjective(s, s'.table, pend, DestBlk(u, k), DestPage(u, k));
    hide Tidy, Gathered, SameMeaning, Injective, Carried, StillExact;
    FlushAhead(u, s, s', n, k, pend, data, cells);
    hide Ahead, Programmed, Legible, Unopened, Kept;
  }

  lemma FlushAhead(u: Run, s: Flash, s': Flash, n: int, k: int, pend: seq<int>, data: seq<Data>, cells: seq<Cell>)
    requires Going(u, s, n, k, pend, data)
    requires Relocated(s, s', pend, DestBlk(u, k), DestPage(u, k), cells)
    requires (DestBlk(u, k), DestPage(u, k)) !in s.nand
    ensures Legible(s', u.vt, PAGES_PER_BLK) && Ahead(u, s', k + 1) && Programmed(u, s', k + 1)
    ensures Unopened(u, s', k + 1)
  {
    hide Tidy, Gathered, SameMeaning, Injective, Carried, StillExact, LiveIn;
  }

  // A superpage not programmed before is shared by nobody.
  lemma RepointedInjective(s: Flash, t: seq<Place>, pend: seq<int>, b: Blk, p: int)
    requires Shaped(s) && Placed(s) && Repointed(s.table, t, pend, b, p) && (b, p) !in s.nand
    ensures Injective(s.table) ==> Injective(t)
  {
  }

  // Setting the count of the block about to be opened.
  lemma OpenGc(u: Run, s: Flash, n: int, k: int, pend: seq<int>, data: seq<Data>)
    requires Going(u, s, n, k, pend, data) && u.r + k == PAGES_PER_BLK - 1
    ensures Going(u, s.(vcount := s.vcount[u.gc := 0]), n, k, pend, data)
    ensures Opened(u, s.(vcount := s.vcount[u.gc := 0]), k)
  {
    hide Injective, Gathered, LiveIn, Exact;
    var s' := s.(vcount := s.vcount[u.gc := 0]);
    assert Gathered(s', u.vt, n, pend, data) by { GatheredSame(s, s', u.vt, n, pend, data); }
    ExactSame(s, s');
  }

  lemma ExactSame(s: Flash, s': Flash)
    requires Shaped(s) && Shaped(s') && s'.table == s.table && s'.nand == s.nand && s'.bits == s.bits
    ensures forall b :: Exact(s, b) ==> Exact(s', b)
  {
  }

  lemma GatheredSame(s: Flash, s': Flash, vt: Blk, n: int, pend: seq<int>, data: seq<Data>)
    requires Shaped(s) && Placed(s) && Shaped(s') && Placed(s') && s'.table == s.table && s'.nand == s.nand
    requires Gathered(s, vt, n, pend, data)
    ensures Gathered(s', vt, n, pend, data)
  {
  }

  // The gathered pages as the cells of a superpage.
  lemma Packs(u: Run, s: Flash, n: int, k: int, pend: seq<int>, data: seq<Data>, cells: seq<Cell>)
    requires Going(u, s, n, k, pend, data) && |cells| == SLOTS && |pend| <= SLOTS
    requires forall i :: 0 <= i < SLOTS ==>
      Effective(cells[i]) == (if i < |pend| then pend[i] else INVALID_LPN) && (i < |pend| ==> cells[i].data == data[i])
    ensures Packed(s, pend, cells)
  {
  }

  // The new count still fits a block.
  lemma CountFits(u: Run, s': Flash, k: int)
    requires Shaped(s') && Placed(s') && Kept(s', Tracked(u, k + 1)) && RunOk(u) && 0 <= k
    requires DestBlk(u, k) in Tracked(u, k + 1)
    ensures DestBlk(u, k) in s'.vcount && 0 <= s'.vcount[DestBlk(u, k)] <= BLK_LPAGES
  {
    LiveBound(s', DestBlk(u, k));
  }

  // Giving the victim back: it holds no live page, so erasing it loses nothing.
  ghost function Returned(s: Flash, vt: Blk): Flash {
    s.(nand := Wiped(s.nand, vt), vcount := s.vcount[vt := VC_MAX])
  }

  lemma ReturnedOk(u: Run, s: Flash, k: int)
    requires After(u, s, k) && LiveIn(s.table, u.vt) == {}
    ensures Shaped(Returned(s, u.vt)) && Placed(Returned(s, u.vt)) && SameMeaning(u.s0, Returned(s, u.vt))
    ensures Blank(Returned(s, u.vt), u.vt, 0)
  {
  }

  lemma ReturnedBlocks(u: Run, s: Flash, k: int)
    requires After(u, s, k) && LiveIn(s.table, u.vt) == {}
    requires Shaped(Returned(s, u.vt)) && Placed(Returned(s, u.vt))
    ensures Kept(Returned(s, u.vt), Tracked(u, k)) && Ahead(u, Returned(s, u.vt), k)
    ensures forall b, m :: b != u.vt && Legible(u.s0, b, m) ==> Legible(Returned(s, u.vt), b, m)
    ensures forall j :: 0 <= j < k && DestBlk(u, j) != u.vt ==>
      (DestBlk(u, j), DestPage(u, j)) in Returned(s, u.vt).nand
  {
  }

  // With every copy in `gc`, that block holds exactly the victim's pages.
  lemma AllInGc(u: Run, s: Flash, k: int)
    requires After(u, s, k) && LiveIn(s.table, u.vt) == {} && u.r == PAGES_PER_BLK - 1 && Opened(u, s, k)
    requires Blank(u.s0, u.gc, 0)
    ensures LiveIn(s.table, u.gc) == LiveIn(u.s0.table, u.vt)
    ensures Tidy(s, u.gc)
  {
  }

  // What garbage_collection has done once the victim is erased.
  ghost predicate Collected(u: Run, s0: Flash, s': Flash, k: int) {
    && Shaped(s0) && Placed(s0) && Shaped(s') && Placed(s') && SameMeaning(s0, s')
    && LiveIn(s'.table, u.vt) == {} && Blank(s', u.vt, 0) && u.vt in s'.vcount && s'.vcount[u.vt] == VC_MAX
    && Kept(s', u.tracked + {u.gc}) && s'.vcount[u.gc] == |LiveIn(s0.table, u.vt)|
    && (forall b, m :: b != u.vt && Legible(s0, b, m) ==> Legible(s', b, m))
    && (forall p :: 0 <= p < PAGES_PER_BLK ==> ((u.gc, p) in s'.nand <==> p < k))
  }

  lemma GcResult(u: Run, s0: Flash, s: Flash, k: int)
    requires After(u, s, k) && LiveIn(s.table, u.vt) == {} && u.r == PAGES_PER_BLK - 1 && Opened(u, s, k)
    requires u.s0 == s0.(vcount := u.s0.vcount) && Blank(u.s0, u.gc, 0)
    ensures Collected(u, s0, Returned(s, u.vt), k)
  {
    var s' := Returned(s, u.vt);
    ReturnedOk(u, s, k);
    ReturnedBlocks(u, s, k);
    AllInGc(u, s, k);
    WipedOk(s, u.vt, s');
    GcPages(u, s, k);
    assert SameMeaning(s0, u.s0);
    SameTrans(s0, u.s0, s');
    assert forall b, m :: Legible(s0, b, m) ==> Legible(u.s0, b, m);
  }

  lemma GcPages(u: Run, s: Flash, k: int)
    requires After(u, s, k) && u.r == PAGES_PER_BLK - 1
    ensures forall p :: 0 <= p < PAGES_PER_BLK ==> ((u.gc, p) in Returned(s, u.vt).nand <==> p < k)
  {
    forall p | 0 <= p < k
      ensures (u.gc, p) in s.nand
    {
      assert DestBlk(u, p) == u.gc && DestPage(u, p) == p;
    }
  }
}
