/** Where logical pages are and what the flash holds: the values behind the
    mapping table, the programmed pages with their spare areas, the valid
    bitmap and the valid counts (ATLWrapper.h:86-110, ATLWrapper.cpp:2057-2110). */
module FlashState {
  import opened Layout
  import opened SetSizes

  type Data = int

  datatype WriteType = SW | JN | RW

  datatype Blk = Blk(bank: int, no: int)

  // What a mapping entry denotes: no page, half a plane page of a superpage in
  // flash (`slot` counts plane and half), or a slot of a write buffer.
  datatype Place =
    | Unmapped
    | Nand(blk: Blk, page: int, slot: int)
    | Buffered(bank: int, kind: WriteType, slot: int)

  // A programmed logical page: REQ_LPN is the requested address, REMAP_LPN the
  // address to be remapped to, if any.
  datatype Cell = Cell(data: Data, req: int, remap: int)

  // The address garbage collection copies a page under.
  function Effective(c: Cell): int {
    if c.remap != INVALID_LPN then c.remap else c.req
  }

  datatype Flash = Flash(
    table: seq<Place>,
    nand: map<(Blk, int), seq<Cell>>,
    bits: set<Place>,
    vcount: map<Blk, int>)

  // ------------------------------------------------ the invariants

  predicate InBlock(p: Place) {
    p.Nand? && 0 <= p.page < PAGES_PER_BLK && 0 <= p.slot < SLOTS
  }

  // Every superpage has eight cells whose addresses exist.
  ghost predicate Shaped(s: Flash) {
    forall x :: x in s.nand ==>
      && |s.nand[x]| == SLOTS
      && (forall i :: 0 <= i < SLOTS ==>
            Effective(s.nand[x][i]) == INVALID_LPN || 0 <= Effective(s.nand[x][i]) < |s.table|)
  }

  // A mapped page is programmed and its bit is set; the converse does not hold.
  ghost predicate Placed(s: Flash) {
    forall l :: 0 <= l < |s.table| && s.table[l].Nand? ==>
      && InBlock(s.table[l]) && s.table[l] in s.bits
      && (s.table[l].blk, s.table[l].page) in s.nand
  }

  function LiveIn(table: seq<Place>, b: Blk): set<int> {
    set l | 0 <= l < |table| && table[l].Nand? && table[l].blk == b
  }

  function CellAt(s: Flash, p: Place): Cell
    requires Shaped(s) && InBlock(p) && (p.blk, p.page) in s.nand
  {
    s.nand[(p.blk, p.page)][p.slot]
  }

  // The live pages of block `b` carry their address in the spare area.
  ghost predicate Carried(s: Flash, b: Blk)
    requires Shaped(s) && Placed(s)
  {
    forall l :: l in LiveIn(s.table, b) ==> Effective(CellAt(s, s.table[l])) == l
  }

  ghost predicate Counted(s: Flash, b: Blk) {
    b in s.vcount && s.vcount[b] == |LiveIn(s.table, b)|
  }

  // What collection needs to know of a block it may copy or write to.
  ghost predicate Tidy(s: Flash, b: Blk)
    requires Shaped(s) && Placed(s)
  {
    Carried(s, b) && Counted(s, b)
  }

  // Up to page `last`, nothing is marked valid where nothing is programmed.
  ghost predicate Legible(s: Flash, b: Blk, last: int) {
    forall p: Place :: InBlock(p) && p.blk == b && p in s.bits && p.page <= last ==> (b, p.page) in s.nand
  }

  // Where a bit is set and an address was programmed, that address is live.
  // Bits of pages that collection has moved stay set, so this fails of a block
  // while it is collected.
  ghost predicate Exact(s: Flash, b: Blk)
    requires Shaped(s)
  {
    forall p: Place :: InBlock(p) && p.blk == b && p in s.bits && (b, p.page) in s.nand
                       && Effective(CellAt(s, p)) != INVALID_LPN ==>
      s.table[Effective(CellAt(s, p))] == p
  }

  ghost predicate Blank(s: Flash, b: Blk, from: int) {
    forall p :: from <= p ==> (b, p) !in s.nand
  }

  // No two addresses share a page of flash.
  ghost predicate Injective(t: seq<Place>) {
    forall l, m :: 0 <= l < m < |t| && t[l].Nand? ==> t[l] != t[m]
  }

  // ------------------------------------------------ meaning

  datatype Content = Stored(data: Data) | Elsewhere(place: Place)

  // What a read of `l` finds; pages outside flash stand for themselves.
  ghost function Resolve(s: Flash, l: int): Content
    requires Shaped(s) && Placed(s) && 0 <= l < |s.table|
  {
    if s.table[l].Nand? then Stored(CellAt(s, s.table[l]).data) else Elsewhere(s.table[l])
  }

  ghost predicate SameMeaning(s0: Flash, s: Flash)
    requires Shaped(s0) && Placed(s0) && Shaped(s) && Placed(s)
  {
    && |s.table| == |s0.table|
    && forall l :: 0 <= l < |s.table| ==> Resolve(s, l) == Resolve(s0, l)
  }

  // Both states are in shape, and every page means the same.
  ghost predicate Preserved(s0: Flash, s: Flash) {
    Shaped(s0) && Placed(s0) && Shaped(s) && Placed(s) && SameMeaning(s0, s)
  }

  lemma PreservedTrans(a: Flash, b: Flash, c: Flash)
    requires Preserved(a, b) && Preserved(b, c)
    ensures Preserved(a, c)
  {
    SameTrans(a, b, c);
  }

  lemma PreservedSelf(s: Flash)
    requires Shaped(s) && Placed(s)
    ensures Preserved(s, s)
  {
  }

  lemma SameTrans(a: Flash, b: Flash, c: Flash)
    requires Shaped(a) && Placed(a) && Shaped(b) && Placed(b) && Shaped(c) && Placed(c)
    requires SameMeaning(a, b) && SameMeaning(b, c)
    ensures SameMeaning(a, c)
  {
  }

  lemma SameSelf(s: Flash)
    requires Shaped(s) && Placed(s)
    ensures SameMeaning(s, s)
  {
  }

  // ------------------------------------------------ counting

  // A block never counts more live pages than it has.
  lemma LiveBound(s: Flash, b: Blk)
    requires Shaped(s) && Placed(s) && Carried(s, b)
    ensures |LiveIn(s.table, b)| <= BLK_LPAGES
  {
    var t := s.table;
    var key := (l: int) => if 0 <= l < |t| && t[l].Nand? then t[l].page * SLOTS + t[l].slot else 0;
    forall e, f | e in LiveIn(t, b) && f in LiveIn(t, b) && key(e) == key(f)
      ensures e == f
    {
      assert InBlock(t[e]) && InBlock(t[f]);
      assert t[e] == t[f];
      assert Effective(CellAt(s, t[e])) == e && Effective(CellAt(s, t[f])) == f;
    }
    InjectionBound(LiveIn(t, b), key, BLK_LPAGES);
  }

  predicate NoDup<T(==)>(s: seq<T>) {
    forall i, j :: 0 <= i < j < |s| ==> s[i] != s[j]
  }

  ghost function Members(s: seq<int>): set<int> {
    set x | x in s
  }

  lemma {:induction false} MembersSize(s: seq<int>)
    requires NoDup(s)
    ensures |Members(s)| == |s|
  {
    if s != [] {
      var t := s[..|s| - 1];
      MembersSize(t);
      assert s == t + [s[|s| - 1]];
      assert Members(s) == Members(t) + {s[|s| - 1]};
    } else {
      assert Members(s) == {};
    }
  }

  // ------------------------------------------------ writing one superpage

  // The pages of `pend` now live in superpage `p` of block `b`.
  ghost predicate Repointed(t0: seq<Place>, t: seq<Place>, pend: seq<int>, b: Blk, p: int) {
    && |t| == |t0|
    && (forall i :: 0 <= i < |pend| ==> 0 <= pend[i] < |t| && t[pend[i]] == Nand(b, p, i))
    && (forall l :: 0 <= l < |t| && l !in pend ==> t[l] == t0[l])
  }

  ghost predicate Relocated(s: Flash, s': Flash, pend: seq<int>, b: Blk, p: int, cells: seq<Cell>) {
    && Repointed(s.table, s'.table, pend, b, p)
    && s'.nand == s.nand[(b, p) := cells]
    && (forall x :: x in s'.bits <==> x in s.bits || (x.Nand? && x.blk == b && x.page == p && 0 <= x.slot < |pend|))
    && b in s.vcount && s'.vcount == s.vcount[b := s.vcount[b] + |pend|]
  }

  // Cells that carry the addresses and the data of the pages in `pend`.
  ghost predicate Packed(s: Flash, pend: seq<int>, cells: seq<Cell>)
    requires Shaped(s) && Placed(s)
  {
    && |cells| == SLOTS && |pend| <= SLOTS && NoDup(pend)
    && (forall i :: 0 <= i < |pend| ==>
          && 0 <= pend[i] < |s.table| && pend[i] < INVALID_LPN
          && Effective(cells[i]) == pend[i] && Resolve(s, pend[i]) == Stored(cells[i].data))
    && (forall i :: |pend| <= i < SLOTS ==> Effective(cells[i]) == INVALID_LPN)
  }

  lemma RelocatedPlaced(s: Flash, s': Flash, pend: seq<int>, b: Blk, p: int, cells: seq<Cell>)
    requires Shaped(s) && Placed(s) && Packed(s, pend, cells) && Relocated(s, s', pend, b, p, cells)
    requires (b, p) !in s.nand && 0 <= p < PAGES_PER_BLK
    ensures Shaped(s') && Placed(s') && SameMeaning(s, s')
  {
  }

  // The pages leave their old block and are counted in the new one.
  lemma RelocatedLive(t: seq<Place>, t': seq<Place>, pend: seq<int>, vt: Blk, b: Blk, p: int, c: Blk)
    requires Repointed(t, t', pend, b, p) && b != vt && NoDup(pend) && Members(pend) <= LiveIn(t, vt)
    ensures LiveIn(t', c) == if c == b then LiveIn(t, b) + Members(pend)
                             else if c == vt then LiveIn(t, vt) - Members(pend) else LiveIn(t, c)
    ensures |LiveIn(t', b)| == |LiveIn(t, b)| + |pend|
    ensures |LiveIn(t', vt)| == |LiveIn(t, vt)| - |pend|
  {
    forall l | 0 <= l < |t| && l in pend
      ensures t'[l].Nand? && t'[l].blk == b && t[l].Nand? && t[l].blk == vt
    {
      var i :| 0 <= i < |pend| && pend[i] == l;
      assert t'[pend[i]] == Nand(b, p, i) && l in Members(pend);
    }
    assert LiveIn(t', b) == LiveIn(t, b) + Members(pend);
    assert LiveIn(t', vt) == LiveIn(t, vt) - Members(pend);
    assert LiveIn(t, b) !! Members(pend);
    MembersSize(pend);
    if c != b && c != vt { assert LiveIn(t', c) == LiveIn(t, c); }
  }

  // No block but the one copied from becomes less exact.
  lemma RelocatedExact(s: Flash, s': Flash, pend: seq<int>, vt: Blk, b: Blk, p: int, cells: seq<Cell>, c: Blk)
    requires Shaped(s) && Placed(s) && Packed(s, pend, cells) && Relocated(s, s', pend, b, p, cells)
    requires (b, p) !in s.nand && b != vt && Members(pend) <= LiveIn(s.table, vt) && c != vt
    requires Shaped(s') && Placed(s') && Exact(s, c)
    ensures Exact(s', c)
  {
    forall q: Place | InBlock(q) && q.blk == c && q in s'.bits && (c, q.page) in s'.nand
                      && Effective(CellAt(s', q)) != INVALID_LPN
      ensures s'.table[Effective(CellAt(s', q))] == q
    {
      var l := Effective(CellAt(s', q));
      if (q.blk, q.page) == (b, p) {
        assert q.slot < |pend| && pend[q.slot] == l;
      } else {
        assert s.table[l] == q;
        assert l in pend ==> l in Members(pend);
      }
    }
  }

  lemma RelocatedCarried(s: Flash, s': Flash, pend: seq<int>, vt: Blk, b: Blk, p: int, cells: seq<Cell>, c: Blk)
    requires Shaped(s) && Placed(s) && Packed(s, pend, cells) && Relocated(s, s', pend, b, p, cells)
    requires (b, p) !in s.nand && b != vt && Members(pend) <= LiveIn(s.table, vt)
    requires Shaped(s') && Placed(s') && Carried(s, c)
    ensures Carried(s', c)
  {
  }

  lemma NoneLive(s: Flash, b: Blk)
    requires Shaped(s) && Placed(s) && Blank(s, b, 0)
    ensures LiveIn(s.table, b) == {} && Carried(s, b)
  {
  }

  // ------------------------------------------------ letting go of a page

  // The page of `l` is overwritten or remapped: its bit and its count go, and
  // `l` is mapped to `q`.
  ghost function LetGo(s: Flash, l: int, q: Place): Flash
    requires 0 <= l < |s.table| && s.table[l].Nand? && s.table[l].blk in s.vcount
  {
    s.(table := s.table[l := q], bits := s.bits - {s.table[l]},
       vcount := s.vcount[s.table[l].blk := s.vcount[s.table[l].blk] - 1])
  }

  // ------------------------------------------------ erasing a block

  ghost function Wiped(nand: map<(Blk, int), seq<Cell>>, b: Blk): map<(Blk, int), seq<Cell>> {
    map x | x in nand && x.0 != b :: nand[x]
  }

  lemma WipedOk(s: Flash, b: Blk, s': Flash)
    requires Shaped(s) && Placed(s) && LiveIn(s.table, b) == {}
    requires s'.table == s.table && s'.nand == Wiped(s.nand, b) && s'.bits == s.bits
    ensures Shaped(s') && Placed(s') && SameMeaning(s, s') && Blank(s', b, 0)
    ensures forall c :: Carried(s, c) ==> Carried(s', c)
    ensures forall c :: Exact(s, c) ==> Exact(s', c)
    ensures Exact(s', b)
  {
    forall l | 0 <= l < |s.table| && s.table[l].Nand?
      ensures s.table[l].blk != b
    {
      assert l in LiveIn(s.table, s.table[l].blk);
    }
  }

  // ------------------------------------------------ what is left alone

  // Blocks outside `touched` are as they were, and no page crosses over.
  ghost predicate Outside(s0: Flash, s: Flash, touched: set<Blk>) {
    && |s.table| == |s0.table| && (Injective(s0.table) ==> Injective(s.table))
    && (forall l :: 0 <= l < |s.table| ==>
          if s0.table[l].Nand? && s0.table[l].blk in touched then s.table[l].Nand? && s.table[l].blk in touched
          else s.table[l] == s0.table[l])
    && (forall x :: x in s.nand && x.0 !in touched ==> x in s0.nand && s0.nand[x] == s.nand[x])
    && (forall x :: x in s0.nand && x.0 !in touched ==> x in s.nand)
    && (forall x :: x in s.bits && x !in s0.bits ==> x.Nand? && x.blk in touched)
    && s0.bits <= s.bits
    && (forall b :: b in s.vcount && b !in touched ==> b in s0.vcount && s0.vcount[b] == s.vcount[b])
    && (forall b :: b in s0.vcount && b !in touched ==> b in s.vcount)
  }

  lemma OutsideTrans(a: Flash, b: Flash, c: Flash, t: set<Blk>, t': set<Blk>)
    requires Outside(a, b, t) && Outside(b, c, t') && t' <= t
    ensures Outside(a, c, t)
  {
  }
}
