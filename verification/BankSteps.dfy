/** What letting go of a page, remapping it and writing a superpage do to the
    blocks of a bank (ATLWrapper.cpp:1110-1199, 1466-1480, 1588-1676). */
module BankSteps {
  import opened Layout
  import opened SetSizes
  import opened FlashState
  import opened BufferState
  import opened BufferFlush
  import opened BlockPartition
  import opened BankLaw

  // ------------------------------------------------ letting go

  lemma LetGoPlaced(s: Flash, l: int, q: Place)
    requires Shaped(s) && Placed(s) && Injective(s.table) && 0 <= l < |s.table| && s.table[l].Nand?
    requires s.table[l].blk in s.vcount
    requires !q.Nand?
    ensures Shaped(LetGo(s, l, q)) && Placed(LetGo(s, l, q)) && Injective(LetGo(s, l, q).table)
  {
    var s' := LetGo(s, l, q);
    forall m | 0 <= m < |s.table| && m != l && s.table[m].Nand?
      ensures s'.table[m] in s'.bits
    {
      assert s.table[m] != s.table[l];
    }
  }

  lemma LetGoGentle(s: Flash, l: int, q: Place, n: int, b: Bank)
    requires Shaped(s) && Placed(s) && Injective(s.table) && 0 <= l < |s.table| && s.table[l].Nand?
    requires s.table[l].blk in s.vcount
    requires !q.Nand? && 0 < s.vcount[s.table[l].blk] <= BLK_LPAGES
    ensures Gentle(s, LetGo(s, l, q), n, b, {})
  {
    hide Tidy, FreeBlk, Legible, Blank, LiveIn, Shaped, Placed;
    LetGoPlaced(s, l, q);
    LegibleLess(s, LetGo(s, l, q));
    forall y: Blk
      ensures Tidy(s, y) ==> Tidy(LetGo(s, l, q), y)
      ensures FreeBlk(s, y) ==> FreeBlk(LetGo(s, l, q), y)
    {
      LetGoBlock(s, l, q, y);
    }
  }

  lemma LetGoBlock(s: Flash, l: int, q: Place, y: Blk)
    requires Shaped(s) && Placed(s) && 0 <= l < |s.table| && s.table[l].Nand? && s.table[l].blk in s.vcount && !q.Nand?
    requires Shaped(LetGo(s, l, q)) && Placed(LetGo(s, l, q))
    ensures Tidy(s, y) ==> Tidy(LetGo(s, l, q), y)
    ensures FreeBlk(s, y) ==> FreeBlk(LetGo(s, l, q), y)
    ensures Counted(s, y) ==> Counted(LetGo(s, l, q), y)
  {
    LiveDrop(s.table, l, q, y);
    if y == s.table[l].blk { OneLess(LiveIn(s.table, y), l); }
  }

  // ------------------------------------------------ handing a page over

  // `o` takes over the page of `t`.
  ghost function HandOver(s: Flash, t: int, o: int): Flash
    requires 0 <= t < |s.table| && 0 <= o < |s.table|
  {
    s.(table := s.table[t := Unmapped][o := s.table[t]])
  }

  lemma HandGentle(s: Flash, t: int, o: int, n: int, b: Bank)
    requires Shaped(s) && Placed(s) && 0 <= t < |s.table| && 0 <= o < |s.table| && t != o
    requires s.table[t].Nand? && !s.table[o].Nand?
    requires s.table[t].blk.bank == n ==> s.table[t].blk.no in b.rw && s.table[t].blk.no !in b.data
    ensures Shaped(HandOver(s, t, o)) && Placed(HandOver(s, t, o)) && Gentle(s, HandOver(s, t, o), n, b, {})
  {
    var s', x := HandOver(s, t, o), s.table[t].blk;
    assert t in LiveIn(s.table, x);
    forall y: Blk | y != x
      ensures LiveIn(s'.table, y) == LiveIn(s.table, y)
    {
    }
  }

  // ------------------------------------------------ writing a superpage

  // The addresses to be written are not in flash.
  predicate Fresh(s: Flash, slots: seq<Slot>) {
    && |slots| == SLOTS && DistinctReqs(slots) && |s.table| <= INVALID_LPN
    && (forall i :: i in Named(slots) ==> 0 <= slots[i].req < |s.table| && !s.table[slots[i].req].Nand?)
    && (forall i :: 0 <= i < SLOTS ==> Recorded(slots[i]) == INVALID_LPN || 0 <= Recorded(slots[i]) < |s.table|)
  }

  lemma FilledPlaced(s: Flash, s': Flash, slots: seq<Slot>, b: Blk, p: int)
    requires Shaped(s) && Placed(s) && Injective(s.table) && Fresh(s, slots) && b in s.vcount
    requires Filled(s, s', slots, b, p)
    requires (b, p) !in s.nand && 0 <= p < PAGES_PER_BLK
    ensures Shaped(s') && Placed(s') && Injective(s'.table)
  {
    var t, t' := s.table, s'.table;
    forall i | 0 <= i < SLOTS
      ensures Effective(Cells(slots)[i]) == Recorded(slots[i])
    {
    }
    forall l | 0 <= l < |t'| && t'[l].Nand?
      ensures InBlock(t'[l]) && t'[l] in s'.bits && (t'[l].blk, t'[l].page) in s'.nand
      ensures l in Reqs(slots) || t'[l] == t[l]
    {
      FilledPlace(s, s', slots, b, p, l);
    }
    forall l, m | 0 <= l < m < |t'| && t'[l].Nand?
      ensures t'[l] != t'[m]
    {
      FilledPlace(s, s', slots, b, p, l);
      FilledPlace(s, s', slots, b, p, m);
    }
  }

  // An address written here sits at its slot, another one is not in this page.
  lemma FilledPlace(s: Flash, s': Flash, slots: seq<Slot>, b: Blk, p: int, l: int)
    requires Placed(s) && Shaped(s) && |slots| == SLOTS && b in s.vcount && Filled(s, s', slots, b, p)
    requires (b, p) !in s.nand
    requires 0 <= l < |s'.table|
    ensures l in Reqs(slots) ==> exists i :: i in Named(slots) && slots[i].req == l && s'.table[l] == Nand(b, p, i)
    ensures l !in Reqs(slots) ==>
      s'.table[l] == s.table[l] && !(s'.table[l].Nand? && s'.table[l].blk == b && s'.table[l].page == p)
  {
  }

  // No page of flash moves: only `b` gains live pages.
  lemma FilledLive(s: Flash, s': Flash, slots: seq<Slot>, b: Blk, p: int, c: Blk)
    requires Fresh(s, slots) && b in s.vcount && Filled(s, s', slots, b, p)
    ensures LiveIn(s'.table, c) == if c == b then LiveIn(s.table, b) + Reqs(slots) else LiveIn(s.table, c)
    ensures LiveIn(s.table, c) !! Reqs(slots)
  {
  }

  lemma FilledGentle(s: Flash, s': Flash, slots: seq<Slot>, b: Blk, p: int, n: int, bank: Bank)
    requires Shaped(s) && Placed(s) && Fresh(s, slots) && b in s.vcount && Filled(s, s', slots, b, p)
    requires (b, p) !in s.nand
    requires Shaped(s') && Placed(s')
    ensures Gentle(s, s', n, bank, {b})
    ensures b.bank != n ==> Gentle(s, s', n, bank, {})
    ensures Legible(s, b, p - 1) ==> Legible(s', b, p)
    ensures Blank(s, b, p) ==> Blank(s', b, p + 1)
  {
    forall y: Blk | y != b
      ensures LiveIn(s'.table, y) == LiveIn(s.table, y)
    {
      FilledLive(s, s', slots, b, p, y);
    }
  }
}
