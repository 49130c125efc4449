/** The blocks of one bank while victims are collected step by step and the host
    goes on writing: what every step keeps (ATLWrapper.cpp:1110-1199, 1466-1480,
    1588-1796, 2593-3009). */
module IncLaw {
  import opened Layout
  import opened SetSizes
  import opened FlashState
  import opened GcModel
  import opened GcSpace
  import opened BufferState
  import opened BufferFlush
  import opened BufferRemap
  import opened BlockPartition
  import opened BankLaw
  import opened BankSteps
  import opened IncModel
  import Addresses

  // A block of the log list: its live pages carry their address, or are
  // temporary pages under their own; its bits say where such pages are.
  ghost predicate LogBlk(s: Flash, b: Blk, start: int)
    requires Shaped(s) && Placed(s)
  {
    && Counted(s, b)
    && (forall l :: l in LiveIn(s.table, b) ==> Called(s, l, start))
    && (forall p: Place :: InBlock(p) && p.blk == b && p in s.bits && (b, p.page) in s.nand
                           && Effective(CellAt(s, p)) != INVALID_LPN ==>
          Marked(s, p, start))
  }

  ghost predicate Called(s: Flash, l: int, start: int)
    requires Shaped(s) && Placed(s) && 0 <= l < |s.table| && s.table[l].Nand?
  {
    var c := CellAt(s, s.table[l]);
    l == Effective(c) || (l == c.req && l >= start)
  }

  ghost predicate Marked(s: Flash, p: Place, start: int)
    requires Shaped(s) && InBlock(p) && (p.blk, p.page) in s.nand && Effective(CellAt(s, p)) != INVALID_LPN
  {
    var c := CellAt(s, p);
    s.table[Effective(c)] == p || (start <= c.req < |s.table| && 0 <= c.req && s.table[c.req] == p)
  }

  // Live pages are in the data list, the log list or a victim, and temporary
  // ones in the log list.
  ghost predicate Housed(s: Flash, n: int, b: Bank, start: int) {
    forall l :: 0 <= l < |s.table| && s.table[l].Nand? && s.table[l].blk.bank == n ==>
      if l >= start then s.table[l].blk.no in b.rw else s.table[l].blk.no in b.data + b.rw + b.victims
  }

  // Bitmaps are exact, and pages are where they may be.
  ghost predicate BitsOk(s: Flash, n: int, b: Bank, start: int)
    requires Shaped(s) && Placed(s)
  {
    && (forall x :: x in b.data ==> Exact(s, Blk(n, x)))
    && (forall x :: x in b.rw ==> LogBlk(s, Blk(n, x), start))
  }

  // Everything but the victims and the buffer of the collector.
  ghost predicate RestOk(s: Flash, n: int, b: Bank, c: Cursors, start: int) {
    BankOk(s, n, b, c) && 0 <= start && Injective(s.table) && BitsOk(s, n, b, start) && Housed(s, n, b, start)
  }

  // ------------------------------------------------ the host lets go of a page

  lemma LetGoRest(s: Flash, n: int, b: Bank, c: Cursors, start: int, l: int, q: Place)
    requires RestOk(s, n, b, c, start) && 0 <= l < |s.table| && s.table[l].Nand? && s.table[l].blk in s.vcount
    requires !q.Nand? && 0 < s.vcount[s.table[l].blk] <= BLK_LPAGES
    ensures RestOk(LetGo(s, l, q), n, b, c, start)
  {
    hide BankOk, BitsOk, Housed, Gentle, Injective;
    BankShaped(s, n, b, c);
    LetGoPlaced(s, l, q);
    LetGoGentle(s, l, q, n, b);
    GentleBank(s, LetGo(s, l, q), n, b, c);
    LetGoBits(s, n, b, start, l, q);
    LetGoHoused(s, n, b, start, l, q);
  }

  lemma BankShaped(s: Flash, n: int, b: Bank, c: Cursors)
    requires BankOk(s, n, b, c)
    ensures Shaped(s) && Placed(s) && |s.table| <= INVALID_LPN && Apart(b) && |b.gc| <= 1
    ensures forall x :: x in All(b) ==> 0 <= x < NO_BLOCK
    ensures forall x :: x in b.gc ==> Blank(s, Blk(n, x), 0)
  {
  }

  lemma LetGoHoused(s: Flash, n: int, b: Bank, start: int, l: int, q: Place)
    requires Housed(s, n, b, start) && 0 <= l < |s.table| && s.table[l].Nand? && s.table[l].blk in s.vcount && !q.Nand?
    ensures Housed(LetGo(s, l, q), n, b, start)
  {
  }

  lemma LetGoBits(s: Flash, n: int, b: Bank, start: int, l: int, q: Place)
    requires Shaped(s) && Placed(s) && Injective(s.table) && BitsOk(s, n, b, start)
    requires 0 <= l < |s.table| && s.table[l].Nand? && s.table[l].blk in s.vcount && !q.Nand?
    requires Shaped(LetGo(s, l, q)) && Placed(LetGo(s, l, q))
    ensures BitsOk(LetGo(s, l, q), n, b, start)
  {
    hide LogBlk, Exact;
    forall x | x in b.data
      ensures Exact(LetGo(s, l, q), Blk(n, x))
    {
      LetGoExact(s, l, q, Blk(n, x));
    }
    forall x | x in b.rw
      ensures LogBlk(LetGo(s, l, q), Blk(n, x), start)
    {
      LetGoLog(s, l, q, Blk(n, x), start);
    }
  }

  lemma LetGoExact(s: Flash, l: int, q: Place, y: Blk)
    requires Shaped(s) && Placed(s) && Exact(s, y)
    requires 0 <= l < |s.table| && s.table[l].Nand? && s.table[l].blk in s.vcount
    requires Shaped(LetGo(s, l, q))
    ensures Exact(LetGo(s, l, q), y)
  {
  }

  lemma LetGoLog(s: Flash, l: int, q: Place, y: Blk, start: int)
    requires Shaped(s) && Placed(s) && LogBlk(s, y, start)
    requires 0 <= l < |s.table| && s.table[l].Nand? && s.table[l].blk in s.vcount && !q.Nand?
    requires Shaped(LetGo(s, l, q)) && Placed(LetGo(s, l, q))
    ensures LogBlk(LetGo(s, l, q), y, start)
  {
    LetGoBlock(s, l, q, y);
    LetGoCalled(s, l, q, y, start);
    LetGoMarked(s, l, q, y, start);
  }

  lemma LetGoCalled(s: Flash, l: int, q: Place, y: Blk, start: int)
    requires Shaped(s) && Placed(s) && LogBlk(s, y, start)
    requires 0 <= l < |s.table| && s.table[l].Nand? && s.table[l].blk in s.vcount && !q.Nand?
    requires Shaped(LetGo(s, l, q)) && Placed(LetGo(s, l, q))
    ensures forall m :: m in LiveIn(LetGo(s, l, q).table, y) ==> Called(LetGo(s, l, q), m, start)
  {
    hide Marked;
    LiveDrop(s.table, l, q, y);
    forall m | m in LiveIn(LetGo(s, l, q).table, y)
      ensures Called(LetGo(s, l, q), m, start)
    {
      assert Called(s, m, start);
    }
  }

  lemma LetGoMarked(s: Flash, l: int, q: Place, y: Blk, start: int)
    requires Shaped(s) && Placed(s) && LogBlk(s, y, start)
    requires 0 <= l < |s.table| && s.table[l].Nand? && s.table[l].blk in s.vcount && !q.Nand?
    requires Shaped(LetGo(s, l, q)) && Placed(LetGo(s, l, q))
    ensures forall p: Place :: InBlock(p) && p.blk == y && p in s.bits && (y, p.page) in s.nand
                               && Effective(CellAt(s, p)) != INVALID_LPN ==>
      p == s.table[l] || Marked(LetGo(s, l, q), p, start)
  {
    hide Called, LiveIn;
    forall p: Place | InBlock(p) && p.blk == y && p in s.bits && (y, p.page) in s.nand
                      && Effective(CellAt(s, p)) != INVALID_LPN
      ensures p == s.table[l] || Marked(LetGo(s, l, q), p, start)
    {
      assert Marked(s, p, start);
    }
  }

  // ------------------------------------------------ a remap

  // The pair names the address that came with the page.
  predicate Agrees(s: Flash, t: int, o: int)
    requires Shaped(s) && Placed(s)
  {
    && 0 <= t < |s.table| && 0 <= o < |s.table| && s.table[t].Nand? && !s.table[o].Nand?
    && Effective(CellAt(s, s.table[t])) == o
  }

  lemma HandRest(s: Flash, n: int, b: Bank, c: Cursors, start: int, t: int, o: int)
    requires RestOk(s, n, b, c, start) && Shaped(s) && Placed(s) && Agrees(s, t, o) && o < start <= t
    ensures RestOk(HandOver(s, t, o), n, b, c, start)
  {
    hide BankOk, BitsOk, Gentle;
    BankShaped(s, n, b, c);
    ApartFacts(b);
    HandGentle(s, t, o, n, b);
    GentleBank(s, HandOver(s, t, o), n, b, c);
    HandBits(s, n, b, start, t, o);
  }

  lemma HandBits(s: Flash, n: int, b: Bank, start: int, t: int, o: int)
    requires Shaped(s) && Placed(s) && Injective(s.table) && BitsOk(s, n, b, start) && Agrees(s, t, o)
    requires 0 <= o < start <= t
    requires Shaped(HandOver(s, t, o)) && Placed(HandOver(s, t, o))
    requires s.table[t].blk.bank == n ==> s.table[t].blk.no !in b.data
    ensures BitsOk(HandOver(s, t, o), n, b, start)
  {
    hide LogBlk, Exact;
    forall x | x in b.data
      ensures Exact(HandOver(s, t, o), Blk(n, x))
    {
      HandExact(s, t, o, Blk(n, x));
    }
    forall x | x in b.rw
      ensures LogBlk(HandOver(s, t, o), Blk(n, x), start)
    {
      HandLog(s, t, o, Blk(n, x), start);
    }
  }

  lemma HandExact(s: Flash, t: int, o: int, y: Blk)
    requires Shaped(s) && Placed(s) && Exact(s, y) && Agrees(s, t, o) && t != o && s.table[t].blk != y
    requires Shaped(HandOver(s, t, o))
    ensures Exact(HandOver(s, t, o), y)
  {
  }

  lemma HandLog(s: Flash, t: int, o: int, y: Blk, start: int)
    requires Shaped(s) && Placed(s) && Injective(s.table) && LogBlk(s, y, start) && Agrees(s, t, o)
    requires 0 <= o < start <= t
    requires Shaped(HandOver(s, t, o)) && Placed(HandOver(s, t, o))
    ensures LogBlk(HandOver(s, t, o), y, start)
  {
    HandCounted(s, t, o, y);
    HandCalled(s, t, o, y, start);
    HandMarked(s, t, o, y, start);
  }

  lemma HandCounted(s: Flash, t: int, o: int, y: Blk)
    requires Counted(s, y) && 0 <= o < t < |s.table| && s.table[t].Nand? && !s.table[o].Nand?
    ensures Counted(HandOver(s, t, o), y)
  {
    LiveSwap(s.table, t, o, y);
  }

  lemma HandCalled(s: Flash, t: int, o: int, y: Blk, start: int)
    requires Shaped(s) && Placed(s) && LogBlk(s, y, start) && Agrees(s, t, o) && 0 <= o < start <= t
    requires Shaped(HandOver(s, t, o)) && Placed(HandOver(s, t, o))
    ensures forall l :: l in LiveIn(HandOver(s, t, o).table, y) ==> Called(HandOver(s, t, o), l, start)
  {
    forall l | l in LiveIn(HandOver(s, t, o).table, y)
      ensures Called(HandOver(s, t, o), l, start)
    {
      if l != o { assert l in LiveIn(s.table, y) && Called(s, l, start); }
    }
  }

  lemma HandMarked(s: Flash, t: int, o: int, y: Blk, start: int)
    requires Shaped(s) && Placed(s) && Injective(s.table) && LogBlk(s, y, start) && Agrees(s, t, o)
    requires 0 <= o < start <= t
    requires Shaped(HandOver(s, t, o)) && Placed(HandOver(s, t, o))
    ensures forall p: Place :: InBlock(p) && p.blk == y && p in s.bits && (y, p.page) in s.nand
                               && Effective(CellAt(s, p)) != INVALID_LPN ==>
      Marked(HandOver(s, t, o), p, start)
  {
    forall p: Place | InBlock(p) && p.blk == y && p in s.bits && (y, p.page) in s.nand
                      && Effective(CellAt(s, p)) != INVALID_LPN
      ensures Marked(HandOver(s, t, o), p, start)
    {
      assert Marked(s, p, start);
    }
  }

  // ------------------------------------------------ leaving the log list

  predicate NoTemps(s: Flash, b: Blk, start: int) {
    forall l :: 0 <= l < |s.table| && l >= start && s.table[l].Nand? ==> s.table[l].blk != b
  }

  lemma MoveRest(s: Flash, n: int, b: Bank, c: Cursors, start: int, x: int)
    requires RestOk(s, n, b, c, start) && x in b.rw && !Ongoing(c.rw, x) && NoTemps(s, Blk(n, x), start)
    ensures RestOk(s, n, Apply(b, RemapDone(x)), c, start)
  {
    hide BankOk, LogBlk, Exact, Tidy, NoTemps, Injective;
    BankShaped(s, n, b, c);
    LogDone(s, Blk(n, x), start);
    MovedBank(s, n, b, c, x);
    ApartFacts(b);
    WithoutFacts(b.rw, x);
    NoTempsThere(s, n, b, start, x);
  }

  lemma NoTempsThere(s: Flash, n: int, b: Bank, start: int, x: int)
    requires NoTemps(s, Blk(n, x), start)
    ensures forall l :: 0 <= l < |s.table| && l >= start && s.table[l].Nand? && s.table[l].blk.bank == n ==>
      s.table[l].blk.no != x
  {
  }

  lemma LogDone(s: Flash, b: Blk, start: int)
    requires Shaped(s) && Placed(s) && LogBlk(s, b, start) && NoTemps(s, b, start)
    ensures Tidy(s, b) && Exact(s, b)
  {
    forall l | l in LiveIn(s.table, b)
      ensures Effective(CellAt(s, s.table[l])) == l
    {
      assert Called(s, l, start);
    }
  }

  // ------------------------------------------------ choosing a victim

  lemma ChooseRest(s: Flash, n: int, b: Bank, c: Cursors, start: int, x: int)
    requires RestOk(s, n, b, c, start) && x in b.data && !Skipped(x, c.sw, c.rw, c.jn, c.gc)
    ensures RestOk(s, n, Apply(b, Choose(x)), c, start)
    ensures Shaped(s) && Placed(s) && Choosable(s, Blk(n, x)) && 0 <= x < NO_BLOCK && x !in b.victims
  {
    hide Legible, Blank, FreeBlk, LogBlk, Exact, Tidy, Places;
    var b' := Apply(b, Choose(x));
    StepApart(b, Choose(x));
    ApartFacts(b);
    WithoutFacts(b.data, x);
    assert BlockOk(s, Blk(n, x), c.sw, c.rw, c.jn, c.gc) && x in All(b);
    forall y | y in All(b')
      ensures y in All(b)
    {
    }
  }

  // ------------------------------------------------ the superpage of collected pages

  // Data cursor and collection cursor change roles.
  function Swap(c: Cursors): Cursors {
    c.(sw := c.gc, gc := c.sw)
  }

  lemma SwapOk(s: Flash, n: int, b: Bank, c: Cursors)
    ensures BankOk(s, n, b, c) ==> BankOk(s, n, b, Swap(c))
  {
    hide Legible, Blank, FreeBlk, Tidy, ListsOk, LogOk, Shaped, Placed;
    if BankOk(s, n, b, c) {
      forall x | x in b.data
        ensures BlockOk(s, Blk(n, x), c.gc, c.rw, c.jn, c.sw)
      {
        assert BlockOk(s, Blk(n, x), c.sw, c.rw, c.jn, c.gc);
      }
    }
  }

  // As RestOk, but the page under the collection cursor is still to be written.
  ghost predicate GcHalf(s: Flash, n: int, b: Bank, c: Cursors, start: int) {
    Pending(s, n, b, Swap(c)) && 0 <= start && Injective(s.table) && BitsOk(s, n, b, start) && Housed(s, n, b, start)
  }

  lemma NextGcHalf(s: Flash, n: int, b: Bank, c: Cursors, start: int)
    requires RestOk(s, n, b, c, start) && c.gc % PAGES_PER_BLK != PAGES_PER_BLK - 1
    ensures GcHalf(s, n, b, c.(gc := c.gc + 1), start)
  {
    hide BankOk, Pending, BitsOk, Housed, Injective;
    BankShaped(s, n, b, c);
    SwapOk(s, n, b, c);
    NextPending(s, n, b, Swap(c));
  }

  lemma OpenGcHalf(s: Flash, n: int, b: Bank, c: Cursors, start: int)
    requires RestOk(s, n, b, c, start) && c.gc % PAGES_PER_BLK == PAGES_PER_BLK - 1 && |b.gc| == 1
    ensures GcHalf(s.(vcount := s.vcount[Blk(n, b.gc[0]) := 0]), n, Apply(b, OpenGc),
      c.(gc := b.gc[0] * PAGES_PER_BLK), start)
  {
    hide Legible, Blank, FreeBlk, Exact, Tidy, LogBlk, Places, Injective, Housed, RwOk;
    var x, s', b', c' := Blk(n, b.gc[0]), s.(vcount := s.vcount[Blk(n, b.gc[0]) := 0]), Apply(b, OpenGc),
      c.(gc := b.gc[0] * PAGES_PER_BLK);
    StepApart(b, OpenGc);
    ApartFacts(b);
    assert b.gc == [b.gc[0]] && b.gc[0] in All(b);
    CountTidy(s, x);
    ZeroCount(s, x);
    OpenedBits(s, n, b, start, x);
    OpenedHoused(s, n, b, start, x);
    OpenedFree(s, n, b, x);
    OpenedLog(s, n, b, c, x);
    forall y | y in b'.data && y != x.no
      ensures BlockOk(s', Blk(n, y), c'.gc, c'.rw, c'.jn, c'.sw)
    {
      assert BlockOk(s, Blk(n, y), c.sw, c.rw, c.jn, c.gc);
    }
    forall y | y in All(b')
      ensures y in All(b)
    {
    }
  }

  // A block just opened holds nothing, and nothing is marked before its first page.
  lemma ZeroCount(s: Flash, x: Blk)
    requires Shaped(s) && Placed(s) && Blank(s, x, 0)
    ensures var s' := s.(vcount := s.vcount[x := 0]);
      Shaped(s') && Placed(s') && Tidy(s', x) && Legible(s', x, -1) && Blank(s', x, 0) && Exact(s', x)
  {
    NoneLive(s, x);
  }

  lemma OpenedBits(s: Flash, n: int, b: Bank, start: int, x: Blk)
    requires Shaped(s) && Placed(s) && BitsOk(s, n, b, start) && Blank(s, x, 0) && b.gc == [x.no]
    requires x.bank == n && x.no !in b.rw
    requires Shaped(s.(vcount := s.vcount[x := 0])) && Placed(s.(vcount := s.vcount[x := 0]))
    ensures BitsOk(s.(vcount := s.vcount[x := 0]), n, Apply(b, OpenGc), start)
  {
    var s' := s.(vcount := s.vcount[x := 0]);
    forall y | y in b.rw
      ensures LogBlk(s', Blk(n, y), start)
    {
      assert LogBlk(s, Blk(n, y), start);
      hide Marked;
      assert forall p: Place :: InBlock(p) && p.blk == Blk(n, y) && p in s.bits && (Blk(n, y), p.page) in s.nand
                                && Effective(CellAt(s, p)) != INVALID_LPN ==>
        Marked(s', p, start) by { SameMarks(s, s', start); }
      assert forall l :: l in LiveIn(s.table, Blk(n, y)) ==> Called(s, l, start) && Called(s', l, start);
    }
    assert forall y :: y in b.data ==> Exact(s, Blk(n, y)) && Exact(s', Blk(n, y));
    NoneLive(s, x);
    assert Exact(s', x);
  }

  lemma SameMarks(s: Flash, s': Flash, start: int)
    requires Shaped(s) && Shaped(s') && s'.table == s.table && s'.nand == s.nand
    ensures forall p: Place :: InBlock(p) && (p.blk, p.page) in s.nand && Effective(CellAt(s, p)) != INVALID_LPN ==>
      (Marked(s, p, start) <==> Marked(s', p, start))
  {
  }

  lemma OpenedHoused(s: Flash, n: int, b: Bank, start: int, x: Blk)
    requires Housed(s, n, b, start) && |b.gc| == 1
    ensures Housed(s.(vcount := s.vcount[x := 0]), n, Apply(b, OpenGc), start)
  {
  }

  lemma OpenedFree(s: Flash, n: int, b: Bank, x: Blk)
    requires forall y :: y in b.free ==> FreeBlk(s, Blk(n, y)) && Blk(n, y) != x
    ensures forall y :: y in b.free ==> FreeBlk(s.(vcount := s.vcount[x := 0]), Blk(n, y))
  {
  }

  lemma OpenedLog(s: Flash, n: int, b: Bank, c: Cursors, x: Blk)
    requires LogOk(s, n, b.rw, c.rw, c.startedRW) && x.bank == n && x.no !in b.rw
    ensures LogOk(s.(vcount := s.vcount[x := 0]), n, b.rw, c.rw, c.startedRW)
  {
  }

  lemma GcFillRest(s: Flash, s': Flash, g: Inc, n: int, b: Bank, c: Cursors, start: int)
    requires GcHalf(s, n, b, c, start) && IncInv(s, g) && g.victims == b.victims && g.bank == n
    requires var x, p := Blk(n, c.gc / PAGES_PER_BLK), c.gc % PAGES_PER_BLK;
      WriteTarget(s, g, x, p) && BufferWritten(s, s', g, x, p)
    ensures RestOk(s', n, b, c, start)
  {
    hide Pending, BitsOk, Housed, Injective, IncInv, BufferWritten, Gentle, Legible, Blank, Tidy, WriteTarget, BankOk;
    var x, p := Blk(n, c.gc / PAGES_PER_BLK), c.gc % PAGES_PER_BLK;
    PendingParts(s, n, b, Swap(c));
    WriteMeaning(s, s', g, x, p);
    GcFillTarget(s, s', g, x, p);
    GcFillGentle(s, s', g, n, b, x, p);
    PendingDone(s, s', n, b, Swap(c));
    SwapOk(s', n, b, Swap(c));
    GcFillInjective(s, s', g, x, p);
    GcFillBits(s, s', g, n, b, start, x, p);
    GcFillHoused(s, s', g, n, b, start, x, p);
  }

  lemma PendingParts(s: Flash, n: int, b: Bank, c: Cursors)
    requires Pending(s, n, b, c)
    ensures Shaped(s) && Placed(s) && |s.table| <= INVALID_LPN && Apart(b)
    ensures var x, p := Blk(n, c.sw / PAGES_PER_BLK), c.sw % PAGES_PER_BLK;
      x.no in b.data && Tidy(s, x) && Legible(s, x, p - 1) && Blank(s, x, p)
    ensures forall y :: y in b.data ==> y !in b.victims && y !in b.rw && y !in b.free && y !in b.gc
    ensures forall y :: y in b.rw + b.free + b.gc ==> y !in b.victims
  {
    ApartFacts(b);
  }

  lemma GcFillTarget(s: Flash, s': Flash, g: Inc, x: Blk, p: int)
    requires IncInv(s, g) && WriteTarget(s, g, x, p) && BufferWritten(s, s', g, x, p) && Shaped(s)
    requires Placed(s) && Shaped(s') && Placed(s')
    requires Tidy(s, x) && Legible(s, x, p - 1) && Blank(s, x, p)
    ensures Tidy(s', x) && Legible(s', x, p) && Blank(s', x, p + 1)
  {
    hide IncInv;
    TargetCounts(s, s', g, x, p);
  }

  // Where the live pages of a block are after the write.
  lemma GcFillLive(s: Flash, s': Flash, g: Inc, x: Blk, p: int, y: Blk)
    requires IncInv(s, g) && WriteTarget(s, g, x, p) && BufferWritten(s, s', g, x, p) && !IsVictim(g, y) && y != x
    ensures LiveIn(s'.table, y) == LiveIn(s.table, y)
    ensures y in s.vcount ==> y in s'.vcount && s'.vcount[y] == s.vcount[y]
  {
    hide IncInv;
    WriteLive(s, s'.table, g, x, p, y);
  }

  lemma GcFillGentle(s: Flash, s': Flash, g: Inc, n: int, b: Bank, x: Blk, p: int)
    requires IncInv(s, g) && g.victims == b.victims && g.bank == n && WriteTarget(s, g, x, p)
    requires BufferWritten(s, s', g, x, p)
    requires Shaped(s) && Placed(s) && Shaped(s') && Placed(s') && |s'.table| == |s.table|
    requires forall y :: y in b.data + b.rw + b.free + b.gc ==> y !in b.victims
    ensures Gentle(s, s', n, b, {x})
  {
    hide IncInv, LiveIn;
    forall y | y in b.data + b.rw + b.free + b.gc && Blk(n, y) != x
      ensures LiveIn(s'.table, Blk(n, y)) == LiveIn(s.table, Blk(n, y))
      ensures Blk(n, y) in s.vcount ==> Blk(n, y) in s'.vcount && s'.vcount[Blk(n, y)] == s.vcount[Blk(n, y)]
    {
      GcFillLive(s, s', g, x, p, Blk(n, y));
    }
    GcFillTidy(s, s', g, n, b, x, p);
    hide Tidy;
  }

  lemma GcFillTidy(s: Flash, s': Flash, g: Inc, n: int, b: Bank, x: Blk, p: int)
    requires IncInv(s, g) && g.victims == b.victims && g.bank == n && WriteTarget(s, g, x, p)
    requires BufferWritten(s, s', g, x, p)
    requires Shaped(s) && Placed(s) && Shaped(s') && Placed(s') && |s'.table| == |s.table|
    requires forall y :: y in b.data ==> y !in b.victims
    ensures forall y :: y in b.data && Blk(n, y) != x && Tidy(s, Blk(n, y)) ==> Tidy(s', Blk(n, y))
  {
    hide IncInv;
    forall y | y in b.data && Blk(n, y) != x && Tidy(s, Blk(n, y))
      ensures Tidy(s', Blk(n, y))
    {
      GcFillLive(s, s', g, x, p, Blk(n, y));
      StillCarried(s, s', g, x, p, Blk(n, y));
    }
  }

  lemma StillCarried(s: Flash, s': Flash, g: Inc, x: Blk, p: int, y: Blk)
    requires IncInv(s, g) && WriteTarget(s, g, x, p) && BufferWritten(s, s', g, x, p) && !IsVictim(g, y) && y != x
    requires Shaped(s) && Placed(s) && Shaped(s') && Placed(s') && LiveIn(s'.table, y) == LiveIn(s.table, y)
    ensures forall l :: l in LiveIn(s'.table, y) ==>
      s'.table[l] == s.table[l] && CellAt(s', s'.table[l]) == CellAt(s, s.table[l])
    ensures Carried(s, y) ==> Carried(s', y)
  {
    hide IncInv;
    IncParts(s, g);
    forall l | l in LiveIn(s'.table, y)
      ensures s'.table[l] == s.table[l]
    {
      WrittenPlace(s, s', g, x, p, l);
    }
  }

  lemma IncParts(s: Flash, g: Inc)
    requires IncInv(s, g)
    ensures Shaped(s) && Placed(s) && Entries(s, g) && |s.table| <= INVALID_LPN
  {
  }

  lemma GcFillInjective(s: Flash, s': Flash, g: Inc, x: Blk, p: int)
    requires IncInv(s, g) && WriteTarget(s, g, x, p) && BufferWritten(s, s', g, x, p) && Injective(s.table)
    requires Shaped(s) && Placed(s)
    ensures Injective(s'.table)
  {
    hide IncInv;
    IncParts(s, g);
    forall l, m | 0 <= l < m < |s'.table| && s'.table[l].Nand?
      ensures s'.table[l] != s'.table[m]
    {
      WrittenPlace(s, s', g, x, p, l);
      WrittenPlace(s, s', g, x, p, m);
    }
  }

  lemma GcFillBits(s: Flash, s': Flash, g: Inc, n: int, b: Bank, start: int, x: Blk, p: int)
    requires IncInv(s, g) && g.victims == b.victims && g.bank == n && WriteTarget(s, g, x, p)
    requires BufferWritten(s, s', g, x, p)
    requires BitsAnd(s, s', n, b, start) && x.bank == n && x.no in b.data
    requires forall y :: y in b.data + b.rw ==> y !in b.victims
    requires forall y :: y in b.data ==> y !in b.rw
    ensures BitsOk(s', n, b, start)
  {
    hide IncInv, BufferWritten, WriteTarget, Exact, LogBlk;
    forall y | y in b.data
      ensures Exact(s', Blk(n, y))
    {
      GcFillExact(s, s', g, x, p, Blk(n, y));
    }
    forall y | y in b.rw
      ensures LogBlk(s', Blk(n, y), start)
    {
      GcFillLog(s, s', g, x, p, Blk(n, y), start);
    }
  }

  ghost predicate BitsAnd(s: Flash, s': Flash, n: int, b: Bank, start: int) {
    Shaped(s) && Placed(s) && Shaped(s') && Placed(s') && BitsOk(s, n, b, start)
  }

  lemma GcFillExact(s: Flash, s': Flash, g: Inc, x: Blk, p: int, y: Blk)
    requires IncInv(s, g) && WriteTarget(s, g, x, p) && BufferWritten(s, s', g, x, p) && !IsVictim(g, y)
    requires Shaped(s) && Placed(s) && Shaped(s') && Exact(s, y)
    ensures Exact(s', y)
  {
    hide IncInv;
    IncParts(s, g);
    SlotsFacts(s, g);
    forall q: Place | InBlock(q) && q.blk == y && q in s'.bits && (y, q.page) in s'.nand
                      && Effective(CellAt(s', q)) != INVALID_LPN
      ensures s'.table[Effective(CellAt(s', q))] == q
    {
      var l := Effective(CellAt(s', q));
      if (q.blk, q.page) == (x, p) {
        assert CellAt(s', q) == Cell(g.data[q.slot], g.lpns[q.slot], INVALID_LPN) && l == g.lpns[q.slot];
      } else {
        assert CellAt(s', q) == CellAt(s, q) && s.table[l] == q;
        WrittenPlace(s, s', g, x, p, l);
      }
    }
  }

  lemma GcFillLog(s: Flash, s': Flash, g: Inc, x: Blk, p: int, y: Blk, start: int)
    requires IncInv(s, g) && WriteTarget(s, g, x, p) && BufferWritten(s, s', g, x, p) && !IsVictim(g, y) && y != x
    requires Shaped(s) && Placed(s) && Shaped(s') && Placed(s') && LogBlk(s, y, start)
    ensures LogBlk(s', y, start)
  {
    hide IncInv;
    IncParts(s, g);
    GcFillLive(s, s', g, x, p, y);
    StillCarried(s, s', g, x, p, y);
    forall l | l in LiveIn(s'.table, y)
      ensures Called(s', l, start)
    {
      assert Called(s, l, start);
    }
    forall q: Place | InBlock(q) && q.blk == y && q in s'.bits && (y, q.page) in s'.nand
                      && Effective(CellAt(s', q)) != INVALID_LPN
      ensures Marked(s', q, start)
    {
      assert CellAt(s', q) == CellAt(s, q) && Marked(s, q, start);
      StillMarked(s, s', g, x, p, q, start);
    }
  }

  lemma StillMarked(s: Flash, s': Flash, g: Inc, x: Blk, p: int, q: Place, start: int)
    requires IncInv(s, g) && WriteTarget(s, g, x, p) && BufferWritten(s, s', g, x, p) && Shaped(s) && Shaped(s')
    requires InBlock(q) && !IsVictim(g, q.blk) && (q.blk, q.page) in s.nand && (q.blk, q.page) in s'.nand
    requires CellAt(s', q) == CellAt(s, q)
    requires Effective(CellAt(s, q)) != INVALID_LPN && Marked(s, q, start)
    ensures Marked(s', q, start)
  {
    hide IncInv;
    IncParts(s, g);
    var c := CellAt(s, q);
    WrittenPlace(s, s', g, x, p, Effective(c));
    if 0 <= c.req < |s.table| { WrittenPlace(s, s', g, x, p, c.req); }
  }

  lemma GcFillHoused(s: Flash, s': Flash, g: Inc, n: int, b: Bank, start: int, x: Blk, p: int)
    requires IncInv(s, g) && g.victims == b.victims && g.bank == n && WriteTarget(s, g, x, p)
    requires BufferWritten(s, s', g, x, p)
    requires Housed(s, n, b, start) && x.bank == n && x.no in b.data && forall y :: y in b.rw ==> y !in b.victims
    ensures Housed(s', n, b, start)
  {
    hide IncInv;
    IncParts(s, g);
    forall l | 0 <= l < |s'.table| && s'.table[l].Nand? && s'.table[l].blk.bank == n
      ensures if l >= start then s'.table[l].blk.no in b.rw else s'.table[l].blk.no in b.data + b.rw + b.victims
    {
      WrittenPlace(s, s', g, x, p, l);
    }
  }

  // ------------------------------------------------ erasing a victim

  // A block that holds nothing and is in no list is erased.
  lemma EraseRest(s: Flash, n: int, b: Bank, c: Cursors, start: int, v: int)
    requires RestOk(s, n, b, c, start) && v in b.victims && LiveIn(s.table, Blk(n, v)) == {}
    ensures var s', b' := Returned(s, Blk(n, v)), b.(victims := Without(b.victims, v));
      RestOk(s', n, b', c, start) && FreeBlk(s', Blk(n, v)) && Places(b', v) == 0 && 0 <= v < NO_BLOCK
  {
    hide Legible, Blank, Tidy, BitsOk, Injective, Places, RwOk, BlockOk, FreeBlk, LiveIn, CursorOk;
    var x, s', b' := Blk(n, v), Returned(s, Blk(n, v)), b.(victims := Without(b.victims, v));
    assert v in All(b);
    ApartFacts(b);
    WithoutFacts(b.victims, v);
    ErasedShape(s, x);
    Erased(s', x);
    ErasedOthers(s, x);
    VictimOut(b, v);
    ErasedBank(s, n, b, c, v);
    ErasedBits(s, n, b, start, v);
    ErasedHoused(s, n, b, start, v);
  }

  lemma ErasedShape(s: Flash, x: Blk)
    requires Shaped(s) && Placed(s) && LiveIn(s.table, x) == {}
    ensures var s' := Returned(s, x);
      && Shaped(s') && Placed(s') && Blank(s', x, 0) && LiveIn(s'.table, x) == {}
      && x in s'.vcount && s'.vcount[x] == VC_MAX && forall y :: Exact(s, y) ==> Exact(s', y)
  {
    var s1 := s.(nand := Wiped(s.nand, x));
    WipedOk(s, x, s1);
    ExactSame(s1, Returned(s, x));
  }

  lemma ErasedOthers(s: Flash, x: Blk)
    requires Shaped(s) && Placed(s) && Shaped(Returned(s, x)) && Placed(Returned(s, x))
    ensures var s' := Returned(s, x);
      && (forall y :: y != x && Tidy(s, y) ==> Tidy(s', y)) && (forall y :: y != x && FreeBlk(s, y) ==> FreeBlk(s', y))
      && (forall y, m :: y != x && Legible(s, y, m) ==> Legible(s', y, m))
      && (forall y, m :: y != x && Blank(s, y, m) ==> Blank(s', y, m))
      && (forall y :: y != x && y in s.vcount ==> y in s'.vcount && s'.vcount[y] == s.vcount[y])
  {
  }

  // A victim is in no other list.
  lemma VictimOut(b: Bank, v: int)
    requires Apart(b) && v in b.victims
    ensures var b' := b.(victims := Without(b.victims, v)); Apart(b') && Places(b', v) == 0
    ensures forall y :: y in All(b.(victims := Without(b.victims, v))) ==> y in All(b) && y != v
  {
    ApartFacts(b);
    WithoutFacts(b.victims, v);
    var b' := b.(victims := Without(b.victims, v));
    forall y
      ensures Places(b', y) == Places(b, y) - if y == v then 1 else 0
    {
      WithoutTimes(b.victims, v, y);
    }
    assert Places(b, v) == 1;
    forall y | y in All(b')
      ensures y in All(b) && y != v
    {
    }
  }

  lemma ErasedBank(s: Flash, n: int, b: Bank, c: Cursors, v: int)
    requires BankOk(s, n, b, c) && v in b.victims && Shaped(Returned(s, Blk(n, v))) && Placed(Returned(s, Blk(n, v)))
    ensures BankOk(Returned(s, Blk(n, v)), n, b.(victims := Without(b.victims, v)), c)
  {
    hide Legible, Blank, Tidy, FreeBlk, Places, Shaped, Placed;
    var s', b' := Returned(s, Blk(n, v)), b.(victims := Without(b.victims, v));
    ApartFacts(b);
    VictimOut(b, v);
    ErasedOthers(s, Blk(n, v));
    forall y | y in b'.data
      ensures BlockOk(s', Blk(n, y), c.sw, c.rw, c.jn, c.gc)
    {
      assert BlockOk(s, Blk(n, y), c.sw, c.rw, c.jn, c.gc);
    }
  }

  lemma ErasedBits(s: Flash, n: int, b: Bank, start: int, v: int)
    requires Shaped(s) && Placed(s) && BitsOk(s, n, b, start) && Apart(b) && v in b.victims
    requires Shaped(Returned(s, Blk(n, v))) && Placed(Returned(s, Blk(n, v)))
    requires forall y :: Exact(s, y) ==> Exact(Returned(s, Blk(n, v)), y)
    ensures BitsOk(Returned(s, Blk(n, v)), n, b.(victims := Without(b.victims, v)), start)
  {
    hide Exact, Apart;
    ApartFacts(b);
    forall y | y in b.rw
      ensures LogBlk(Returned(s, Blk(n, v)), Blk(n, y), start)
    {
      LogSame(s, Returned(s, Blk(n, v)), Blk(n, y), start);
    }
  }

  // A log block whose pages, bits and count stay is as good as before.
  lemma LogSame(s: Flash, s': Flash, y: Blk, start: int)
    requires Shaped(s) && Placed(s) && Shaped(s') && Placed(s') && LogBlk(s, y, start) && s'.table == s.table
    requires forall p :: (y, p) in s'.nand <==> (y, p) in s.nand
    requires forall p :: (y, p) in s.nand && (y, p) in s'.nand ==> s'.nand[(y, p)] == s.nand[(y, p)]
    requires forall q: Place :: q.Nand? && q.blk == y && q in s'.bits ==> q in s.bits
    requires y in s.vcount && y in s'.vcount && s'.vcount[y] == s.vcount[y]
    ensures LogBlk(s', y, start)
  {
    forall l | l in LiveIn(s'.table, y)
      ensures Called(s', l, start)
    {
      assert Called(s, l, start);
    }
    forall q: Place | InBlock(q) && q.blk == y && q in s'.bits && (y, q.page) in s'.nand
                      && Effective(CellAt(s', q)) != INVALID_LPN
      ensures Marked(s', q, start)
    {
      assert CellAt(s', q) == CellAt(s, q) && Marked(s, q, start);
    }
  }

  lemma ErasedHoused(s: Flash, n: int, b: Bank, start: int, v: int)
    requires Housed(s, n, b, start) && NoDup(b.victims) && v in b.victims && LiveIn(s.table, Blk(n, v)) == {}
    ensures Housed(Returned(s, Blk(n, v)), n, b.(victims := Without(b.victims, v)), start)
  {
    WithoutFacts(b.victims, v);
    forall l | 0 <= l < |s.table| && s.table[l].Nand? && s.table[l].blk.bank == n
      ensures s.table[l].blk.no != v
    {
      assert l !in LiveIn(s.table, Blk(n, v));
    }
  }

  // An erased block that is in no list enters the free list.
  lemma FreedRest(s: Flash, n: int, b: Bank, c: Cursors, start: int, v: int)
    requires RestOk(s, n, b, c, start) && FreeBlk(s, Blk(n, v)) && Places(b, v) == 0 && 0 <= v < NO_BLOCK
    ensures RestOk(s, n, b.(free := b.free + [v]), c, start)
  {
    hide Legible, Blank, Tidy, Exact, LogBlk, Injective, RwOk, BlockOk, FreeBlk, LiveIn, CursorOk, Places;
    BankShaped(s, n, b, c);
    FreedApart(b, v);
  }

  lemma FreedApart(b: Bank, v: int)
    requires Apart(b) && Places(b, v) == 0
    ensures Apart(b.(free := b.free + [v])) && forall y :: y in All(b.(free := b.free + [v])) ==> y in All(b) || y == v
  {
    hide Times;
    var b' := b.(free := b.free + [v]);
    forall y
      ensures Places(b', y) <= 1
    {
      AppendTimes(b.free, v, y);
      OneTime(v, y);
      assert Places(b, y) <= if y == v then 0 else 1;
    }
    forall y | y in All(b')
      ensures y in All(b) || y == v
    {
    }
  }

  // The head of the free list becomes the empty block.
  lemma RefillRest(s: Flash, s': Flash, n: int, b: Bank, c: Cursors, start: int)
    requires RestOk(s, n, b, c, start) && b.gc == [] && b.free != [] && Shaped(s') && Placed(s')
    requires s'.table == s.table && s'.bits == s.bits && s'.vcount == s.vcount
    requires s'.nand == s.nand || s'.nand == Wiped(s.nand, Blk(n, b.free[0]))
    requires Blank(s', Blk(n, b.free[0]), 0) && forall y :: Exact(s, y) ==> Exact(s', y)
    ensures RestOk(s', n, b.(free := b.free[1..], gc := [b.free[0]]), c, start)
  {
    hide Legible, Blank, Tidy, BitsOk, Injective, RwOk, BlockOk, FreeBlk, LiveIn, CursorOk, Times;
    var b', x := b.(free := b.free[1..], gc := [b.free[0]]), Blk(n, b.free[0]);
    ApartFacts(b);
    assert b.free == [b.free[0]] + b.free[1..];
    RefillApart(b);
    RefillOthers(s, s', x);
    RefillBank(s, s', n, b, c);
    RefillBits(s, s', n, b, start);
  }

  lemma RefillApart(b: Bank)
    requires Apart(b) && b.gc == [] && b.free != []
    ensures Apart(b.(free := b.free[1..], gc := [b.free[0]]))
    ensures forall y :: y in All(b.(free := b.free[1..], gc := [b.free[0]])) ==> y in All(b)
    ensures b.free[0] !in b.free[1..]
  {
    hide Times;
    forall y
      ensures Places(b.(free := b.free[1..], gc := [b.free[0]]), y) == Places(b, y)
    {
      TailTimes(b.free, y);
      NoTimes(y);
    }
    ApartFacts(b);
    forall y | y in All(b.(free := b.free[1..], gc := [b.free[0]]))
      ensures y in All(b)
    {
      assert y in b.free[1..] ==> y in b.free;
    }
  }

  lemma RefillOthers(s: Flash, s': Flash, x: Blk)
    requires Shaped(s) && Placed(s) && Shaped(s') && Placed(s')
    requires s'.table == s.table && s'.bits == s.bits && s'.vcount == s.vcount
    requires (s'.nand == s.nand || s'.nand == Wiped(s.nand, x))
    ensures (forall y :: y != x && Tidy(s, y) ==> Tidy(s', y))
    ensures (forall y :: y != x && FreeBlk(s, y) ==> FreeBlk(s', y))
    ensures (forall y, m :: y != x && Legible(s, y, m) ==> Legible(s', y, m))
    ensures (forall y, m :: Blank(s, y, m) ==> Blank(s', y, m))
    ensures FreeBlk(s, x) ==> FreeBlk(s', x)
  {
  }

  lemma RefillBank(s: Flash, s': Flash, n: int, b: Bank, c: Cursors)
    requires BankOk(s, n, b, c) && b.gc == [] && b.free != [] && Shaped(s') && Placed(s')
    requires s'.table == s.table && s'.bits == s.bits && s'.vcount == s.vcount
    requires s'.nand == s.nand || s'.nand == Wiped(s.nand, Blk(n, b.free[0]))
    requires Blank(s', Blk(n, b.free[0]), 0)
    ensures BankOk(s', n, b.(free := b.free[1..], gc := [b.free[0]]), c)
  {
    hide Legible, Blank, Tidy, FreeBlk, Places, Shaped, Placed, Apart;
    var b' := b.(free := b.free[1..], gc := [b.free[0]]);
    ApartFacts(b);
    RefillApart(b);
    RefillOthers(s, s', Blk(n, b.free[0]));
    assert b.free[0] in b.free;
    forall y | y in b'.data
      ensures BlockOk(s', Blk(n, y), c.sw, c.rw, c.jn, c.gc)
    {
      assert BlockOk(s, Blk(n, y), c.sw, c.rw, c.jn, c.gc);
    }
    assert forall y :: y in b'.free ==> y in b.free;
  }

  lemma RefillBits(s: Flash, s': Flash, n: int, b: Bank, start: int)
    requires Shaped(s) && Placed(s) && Shaped(s') && Placed(s') && BitsOk(s, n, b, start) && Apart(b) && b.free != []
    requires s'.table == s.table && s'.bits == s.bits && s'.vcount == s.vcount
    requires s'.nand == s.nand || s'.nand == Wiped(s.nand, Blk(n, b.free[0]))
    requires forall y :: Exact(s, y) ==> Exact(s', y)
    ensures BitsOk(s', n, b.(free := b.free[1..], gc := [b.free[0]]), start)
  {
    hide Exact, Apart;
    ApartFacts(b);
    assert b.free[0] in b.free;
    forall y | y in b.rw
      ensures LogBlk(s', Blk(n, y), start)
    {
      assert LogBlk(s, Blk(n, y), start);
      LogSame(s, s', Blk(n, y), start);
    }
  }

  // ------------------------------------------------ a superpage of host pages

  // As RestOk, but the page assigned to the host is still to be written.
  ghost predicate HostHalf(s: Flash, n: int, b: Bank, c: Cursors, start: int, kind: WriteType) {
    && (match kind
        case SW => Pending(s, n, b, c)
        case RW => RwPending(s, n, b, c)
        case JN => false)
    && 0 <= start && Injective(s.table) && BitsOk(s, n, b, start) && Housed(s, n, b, start)
  }

  function HostPage(c: Cursors, kind: WriteType): int {
    if kind == SW then c.sw else c.rw
  }

  // Home pages are recorded under their own address, temporary ones are written
  // to log blocks only.
  predicate Proper(s: Flash, slots: seq<Slot>, start: int, kind: WriteType) {
    && Fresh(s, slots)
    && forall i :: 0 <= i < |slots| && slots[i].req != INVALID_LPN ==>
         (slots[i].req < start ==> Recorded(slots[i]) == slots[i].req) && (slots[i].req >= start ==> kind == RW)
  }

  // Some slot lost its address in the buffer, but not the one to be remapped to.
  predicate Blanked(slots: seq<Slot>) {
    exists i :: 0 <= i < |slots| && slots[i].req == INVALID_LPN && Recorded(slots[i]) != INVALID_LPN
  }

  // No slot without address meets a bit left over from before the erasure while
  // it still carries an address to be remapped to.
  predicate Clean(s: Flash, slots: seq<Slot>, x: Blk, p: int) {
    forall i :: 0 <= i < |slots| && slots[i].req == INVALID_LPN && Recorded(slots[i]) != INVALID_LPN ==>
      Nand(x, p, i) !in s.bits
  }

  lemma FillRest(s: Flash, s': Flash, slots: seq<Slot>, n: int, b: Bank, c: Cursors, start: int, kind: WriteType)
    requires HostHalf(s, n, b, c, start, kind) && Proper(s, slots, start, kind)
    requires var x, p := Blk(n, HostPage(c, kind) / PAGES_PER_BLK), HostPage(c, kind) % PAGES_PER_BLK;
      Clean(s, slots, x, p) && (x, p) !in s.nand && x in s.vcount && Filled(s, s', slots, x, p)
    ensures RestOk(s', n, b, c, start)
  {
    hide Pending, RwPending, BitsOk, Housed, Injective, Filled, Gentle, Legible, Blank, Tidy, BankOk, Proper, Clean;
    var x, p := Blk(n, HostPage(c, kind) / PAGES_PER_BLK), HostPage(c, kind) % PAGES_PER_BLK;
    HalfShape(s, n, b, c, start, kind);
    ProperFresh(s, slots, start, kind);
    FilledPlaced(s, s', slots, x, p);
    FilledGentle(s, s', slots, x, p, n, b);
    if kind == SW {
      FillTidy(s, s', slots, x, p, start);
      PendingDone(s, s', n, b, c);
    } else {
      FillCount(s, s', slots, x, p, start);
      RwPendingDone(s, s', n, b, c);
    }
    FillBits(s, s', slots, n, b, start, x, p, kind);
    FillHoused(s, s', slots, n, b, start, x, p, kind);
  }

  lemma ProperFresh(s: Flash, slots: seq<Slot>, start: int, kind: WriteType)
    requires Proper(s, slots, start, kind)
    ensures Fresh(s, slots)
  {
  }

  lemma HalfShape(s: Flash, n: int, b: Bank, c: Cursors, start: int, kind: WriteType)
    requires HostHalf(s, n, b, c, start, kind)
    ensures Shaped(s) && Placed(s) && Injective(s.table) && |s.table| <= INVALID_LPN && Apart(b) && kind != JN
    ensures 0 <= start
    ensures BitsOk(s, n, b, start) && Housed(s, n, b, start)
    ensures forall y :: y in b.data ==> y !in b.rw
    ensures var x, p := Blk(n, HostPage(c, kind) / PAGES_PER_BLK), HostPage(c, kind) % PAGES_PER_BLK;
      && Legible(s, x, p - 1) && Blank(s, x, p) && (x, p) !in s.nand && 0 <= p < PAGES_PER_BLK
      && (if kind == SW then x.no in b.data && Tidy(s, x) && Pending(s, n, b, c)
        else x.no in b.rw && LogBlk(s, x, start) && RwPending(s, n, b, c))
  {
    ApartFacts(b);
  }

  lemma FillSizes(s: Flash, s': Flash, slots: seq<Slot>, x: Blk, p: int)
    requires Fresh(s, slots) && x in s.vcount && Filled(s, s', slots, x, p) && Counted(s, x)
    ensures Counted(s', x)
  {
    FilledLive(s, s', slots, x, p, x);
    ReqSizes(slots, 0);
  }

  lemma FillTidy(s: Flash, s': Flash, slots: seq<Slot>, x: Blk, p: int, start: int)
    requires Shaped(s) && Placed(s) && Shaped(s') && Placed(s') && Proper(s, slots, start, SW)
    requires x in s.vcount && Filled(s, s', slots, x, p) && (x, p) !in s.nand && Tidy(s, x)
    ensures Tidy(s', x)
  {
    FillSizes(s, s', slots, x, p);
    forall l | l in LiveIn(s'.table, x)
      ensures Effective(CellAt(s', s'.table[l])) == l
    {
      FilledPlace(s, s', slots, x, p, l);
      if l !in Reqs(slots) { assert l in LiveIn(s.table, x); }
    }
  }

  lemma FillCount(s: Flash, s': Flash, slots: seq<Slot>, x: Blk, p: int, start: int)
    requires Shaped(s) && Placed(s) && Injective(s'.table) && Shaped(s') && Placed(s') && Proper(s, slots, start, RW)
    requires x in s.vcount && Filled(s, s', slots, x, p) && (x, p) !in s.nand && LogBlk(s, x, start)
    ensures Counted(s', x) && 0 <= s'.vcount[x] <= BLK_LPAGES
  {
    FillSizes(s, s', slots, x, p);
    LiveFits(s', x);
  }

  lemma FillHoused(s: Flash, s': Flash, slots: seq<Slot>, n: int, b: Bank, start: int, x: Blk, p: int, kind: WriteType)
    requires Housed(s, n, b, start) && Proper(s, slots, start, kind) && Shaped(s) && Placed(s)
    requires x in s.vcount && Filled(s, s', slots, x, p) && (x, p) !in s.nand && x.bank == n && kind != JN
    requires if kind == SW then x.no in b.data else x.no in b.rw
    ensures Housed(s', n, b, start)
  {
    forall l | 0 <= l < |s'.table| && s'.table[l].Nand? && s'.table[l].blk.bank == n
      ensures if l >= start then s'.table[l].blk.no in b.rw else s'.table[l].blk.no in b.data + b.rw + b.victims
    {
      FilledPlace(s, s', slots, x, p, l);
    }
  }

  lemma FillBits(s: Flash, s': Flash, slots: seq<Slot>, n: int, b: Bank, start: int, x: Blk, p: int, kind: WriteType)
    requires BitsAnd(s, s', n, b, start) && Injective(s.table) && Proper(s, slots, start, kind) && Clean(s, slots, x, p)
    requires x in s.vcount && Filled(s, s', slots, x, p) && (x, p) !in s.nand && x.bank == n && kind != JN
    requires kind == SW ==> x.no !in b.rw
    requires kind == RW ==> x.no !in b.data
    ensures BitsOk(s', n, b, start)
  {
    hide Exact, LogBlk, Filled, Proper, Clean;
    forall y | y in b.data
      ensures Exact(s', Blk(n, y))
    {
      FillExact(s, s', slots, start, x, p, kind, Blk(n, y));
    }
    forall y | y in b.rw
      ensures LogBlk(s', Blk(n, y), start)
    {
      FillLog(s, s', slots, start, x, p, kind, Blk(n, y));
    }
  }

  // The cell of a slot, and what a page of another superpage keeps.
  lemma FillCell(s: Flash, s': Flash, slots: seq<Slot>, x: Blk, p: int, q: Place)
    requires Shaped(s) && Shaped(s') && |slots| == SLOTS && x in s.vcount && Filled(s, s', slots, x, p)
    requires InBlock(q) && (q.blk, q.page) in s'.nand
    ensures (q.blk, q.page) == (x, p) ==>
      var o := slots[q.slot];
      CellAt(s', q) == Cell(o.data, o.req, o.remap) && Effective(CellAt(s', q)) == Recorded(o)
      && (q in s'.bits ==> q in s.bits || o.req != INVALID_LPN)
    ensures (q.blk, q.page) != (x, p) ==>
      (q.blk, q.page) in s.nand && CellAt(s', q) == CellAt(s, q) && (q in s'.bits ==> q in s.bits)
  {
  }

  lemma FillExact(s: Flash, s': Flash, slots: seq<Slot>, start: int, x: Blk, p: int, kind: WriteType, y: Blk)
    requires Shaped(s) && Placed(s) && Shaped(s') && Exact(s, y) && Proper(s, slots, start, kind)
    requires Clean(s, slots, x, p)
    requires x in s.vcount && Filled(s, s', slots, x, p) && (x, p) !in s.nand && (y == x ==> kind == SW)
    ensures Exact(s', y)
  {
    forall q: Place | InBlock(q) && q.blk == y && q in s'.bits && (y, q.page) in s'.nand
                      && Effective(CellAt(s', q)) != INVALID_LPN
      ensures s'.table[Effective(CellAt(s', q))] == q
    {
      FillCell(s, s', slots, x, p, q);
      if (q.blk, q.page) != (x, p) {
        assert s.table[Effective(CellAt(s, q))] == q;
        FilledPlace(s, s', slots, x, p, Effective(CellAt(s, q)));
      }
    }
  }

  lemma FillLog(s: Flash, s': Flash, slots: seq<Slot>, start: int, x: Blk, p: int, kind: WriteType, y: Blk)
    requires Shaped(s) && Placed(s) && Shaped(s') && Placed(s') && LogBlk(s, y, start)
    requires Proper(s, slots, start, kind) && Clean(s, slots, x, p)
    requires x in s.vcount && Filled(s, s', slots, x, p) && (x, p) !in s.nand && (y == x ==> kind == RW)
    ensures LogBlk(s', y, start)
  {
    FillLogCounted(s, s', slots, x, p, y);
    FillLogCalled(s, s', slots, start, x, p, kind, y);
    forall q: Place | InBlock(q) && q.blk == y && q in s'.bits && (y, q.page) in s'.nand
                      && Effective(CellAt(s', q)) != INVALID_LPN
      ensures Marked(s', q, start)
    {
      FillCell(s, s', slots, x, p, q);
      if (q.blk, q.page) != (x, p) {
        assert Marked(s, q, start);
        FillMarked(s, s', slots, x, p, q, start);
      }
    }
  }

  lemma FillMarked(s: Flash, s': Flash, slots: seq<Slot>, x: Blk, p: int, q: Place, start: int)
    requires Shaped(s) && Shaped(s') && Placed(s) && Fresh(s, slots) && x in s.vcount
    requires Filled(s, s', slots, x, p) && (x, p) !in s.nand
    requires InBlock(q) && (q.blk, q.page) in s.nand && (q.blk, q.page) in s'.nand && CellAt(s', q) == CellAt(s, q)
    requires Effective(CellAt(s, q)) != INVALID_LPN && Marked(s, q, start)
    ensures Marked(s', q, start)
  {
    var c := CellAt(s, q);
    FilledPlace(s, s', slots, x, p, Effective(c));
    if 0 <= c.req < |s.table| { FilledPlace(s, s', slots, x, p, c.req); }
  }

  lemma FillLogCounted(s: Flash, s': Flash, slots: seq<Slot>, x: Blk, p: int, y: Blk)
    requires Counted(s, y) && Fresh(s, slots) && x in s.vcount && Filled(s, s', slots, x, p)
    ensures Counted(s', y)
  {
    if y == x { FillSizes(s, s', slots, x, p); } else { FilledLive(s, s', slots, x, p, y); }
  }

  lemma FillLogCalled(s: Flash, s': Flash, slots: seq<Slot>, start: int, x: Blk, p: int, kind: WriteType, y: Blk)
    requires Shaped(s) && Placed(s) && Shaped(s') && Placed(s') && LogBlk(s, y, start) && Proper(s, slots, start, kind)
    requires x in s.vcount && Filled(s, s', slots, x, p) && (x, p) !in s.nand
    ensures forall l :: l in LiveIn(s'.table, y) ==> Called(s', l, start)
  {
    forall l | l in LiveIn(s'.table, y)
      ensures Called(s', l, start)
    {
      FilledPlace(s, s', slots, x, p, l);
      FillCell(s, s', slots, x, p, s'.table[l]);
      if l !in Reqs(slots) { assert l in LiveIn(s.table, y) && Called(s, l, start); }
    }
  }

  // The bitmaps stay exact only if the superpage is clean: a slot that lost its
  // address in the buffer but not the address to be remapped to is taken for a
  // live page if its bit is left over.
  lemma CleanNeeded(s: Flash, s': Flash, slots: seq<Slot>, start: int, x: Blk, p: int, kind: WriteType)
    requires Shaped(s) && Placed(s) && Shaped(s') && Placed(s') && Proper(s, slots, start, kind) && kind != JN
    requires x in s.vcount && Filled(s, s', slots, x, p) && (x, p) !in s.nand && 0 <= p < PAGES_PER_BLK
    ensures kind == SW && Exact(s, x) ==> (Exact(s', x) <==> Clean(s, slots, x, p))
    ensures kind == RW && LogBlk(s, x, start) ==> (LogBlk(s', x, start) <==> Clean(s, slots, x, p))
  {
    if Clean(s, slots, x, p) {
      if kind == SW && Exact(s, x) { FillExact(s, s', slots, start, x, p, kind, x); }
      if kind == RW && LogBlk(s, x, start) { FillLog(s, s', slots, start, x, p, kind, x); }
    } else {
      var i :| 0 <= i < |slots| && slots[i].req == INVALID_LPN && Recorded(slots[i]) != INVALID_LPN
        && Nand(x, p, i) in s.bits;
      var q := Nand(x, p, i);
      FillCell(s, s', slots, x, p, q);
      FilledPlace(s, s', slots, x, p, Recorded(slots[i]));
      assert s'.table[Effective(CellAt(s', q))] != q && !Marked(s', q, start);
    }
  }

  // ------------------------------------------------ an allocation

  lemma AllocRest(s: Flash, s': Flash, n: int, b: Bank, b': Bank, c: Cursors, c': Cursors, start: int, x: int,
                  kind: WriteType)
    requires RestOk(s, n, b, c, start) && MeaningKept(s, s', Reachable(n, b)) && Reshuffled(b, b', x)
    requires match kind case SW => Pending(s', n, b', c') case RW => RwPending(s', n, b', c') case JN => false
    requires forall y :: y in b'.data ==> y in b.data + b.gc || Blank(s', Blk(n, y), 0)
    requires b'.rw != b.rw ==> FreeBlk(s', Blk(n, x)) && Blank(s', Blk(n, x), 0) && s'.vcount[Blk(n, x)] == 0
    ensures HostHalf(s', n, b', c', start, kind)
  {
    hide Pending, RwPending, BankOk, BitsOk, Housed, Injective, Exact, LogBlk, Blank, FreeBlk, Settled, Reshuffled,
         Places, Apart;
    BankShaped(s, n, b, c);
    AllocLists(s', n, b', c', kind);
    ReshuffledAll(b, b', x);
    AllocInjective(s, s', Reachable(n, b));
    AllocBits(s, s', n, b, b', start, x);
    AllocHoused(s, s', n, b, b', start, x);
  }

  lemma AllocLists(s: Flash, n: int, b: Bank, c: Cursors, kind: WriteType)
    requires match kind case SW => Pending(s, n, b, c) case RW => RwPending(s, n, b, c) case JN => false
    ensures Shaped(s) && Placed(s) && ListsOk(s, n, b) && forall y :: y in b.data ==> Tidy(s, Blk(n, y))
  {
    hide Tidy, ListsOk, RwOk, LogOk, CursorOk, Blank, Legible;
    if kind == SW {
      forall y | y in b.data
        ensures Tidy(s, Blk(n, y))
      {
        assert y != c.sw / PAGES_PER_BLK ==> BlockOk(s, Blk(n, y), c.sw, c.rw, c.jn, c.gc);
      }
    } else {
      forall y | y in b.data
        ensures Tidy(s, Blk(n, y))
      {
        assert BlockOk(s, Blk(n, y), c.sw, c.rw, c.jn, c.gc);
      }
    }
  }

  lemma AllocInjective(s: Flash, s': Flash, touched: set<Blk>)
    requires MeaningKept(s, s', touched) && Injective(s.table)
    ensures Injective(s'.table)
  {
  }

  lemma AllocBits(s: Flash, s': Flash, n: int, b: Bank, b': Bank, start: int, x: int)
    requires MeaningKept(s, s', Reachable(n, b)) && BitsAnd(s, s', n, b, start) && Apart(b) && Reshuffled(b, b', x)
    requires forall y :: y in b.gc ==> Blank(s, Blk(n, y), 0)
    requires forall y :: y in b'.data ==> y in b.data + b.gc || Blank(s', Blk(n, y), 0)
    requires b'.rw != b.rw ==> FreeBlk(s', Blk(n, x)) && Blank(s', Blk(n, x), 0) && s'.vcount[Blk(n, x)] == 0
    ensures BitsOk(s', n, b', start)
  {
    hide Exact, LogBlk, SameMeaning, Places, Apart;
    ApartFacts(b);
    forall y | y in b'.data
      ensures Exact(s', Blk(n, y))
    {
      if y !in b.data {
        if y in b.gc { BlankExact(s, Blk(n, y)); } else { BlankExact(s', Blk(n, y)); }
      }
    }
    forall y | y in b'.rw
      ensures LogBlk(s', Blk(n, y), start)
    {
      if y in b.rw {
        OutsideLog(s, s', Reachable(n, b), Blk(n, y), start);
      } else {
        BlankLog(s', Blk(n, y), start);
      }
    }
  }

  lemma BlankExact(s: Flash, y: Blk)
    requires Shaped(s) && Blank(s, y, 0)
    ensures Exact(s, y)
  {
  }

  lemma BlankLog(s: Flash, y: Blk, start: int)
    requires Shaped(s) && Placed(s) && Blank(s, y, 0) && y in s.vcount && s.vcount[y] == 0
    ensures LogBlk(s, y, start)
  {
    NoneLive(s, y);
  }

  lemma OutsideLog(s: Flash, s': Flash, touched: set<Blk>, y: Blk, start: int)
    requires MeaningKept(s, s', touched) && y !in touched && LogBlk(s, y, start)
    ensures LogBlk(s', y, start)
  {
    hide SameMeaning, Exact;
    LiveOutside(s, s', touched, y);
    forall l | l in LiveIn(s'.table, y)
      ensures Called(s', l, start)
    {
      assert Called(s, l, start);
    }
    forall q: Place | InBlock(q) && q.blk == y && q in s'.bits && (y, q.page) in s'.nand
                      && Effective(CellAt(s', q)) != INVALID_LPN
      ensures Marked(s', q, start)
    {
      assert CellAt(s', q) == CellAt(s, q) && Marked(s, q, start);
    }
  }

  lemma AllocHoused(s: Flash, s': Flash, n: int, b: Bank, b': Bank, start: int, x: int)
    requires MeaningKept(s, s', Reachable(n, b)) && Housed(s, n, b, start) && Apart(b) && Apart(b')
    requires Reshuffled(b, b', x)
    requires ListsOk(s', n, b') && (b'.rw != b.rw ==> FreeBlk(s', Blk(n, x)))
    ensures Housed(s', n, b', start)
  {
    hide SameMeaning, Exact, Apart, Injective;
    ApartFacts(b);
    forall l | 0 <= l < |s'.table| && s'.table[l].Nand? && s'.table[l].blk.bank == n
      ensures if l >= start then s'.table[l].blk.no in b'.rw else s'.table[l].blk.no in b'.data + b'.rw + b'.victims
    {
      var y := s'.table[l].blk.no;
      assert l in LiveIn(s'.table, Blk(n, y));
      if s'.table[l].blk in Reachable(n, b) {
        assert s.table[l].Nand? && s.table[l].blk in Reachable(n, b);
        InSomeList(b, b', x, y);
      }
    }
  }

  lemma InSomeList(b: Bank, b': Bank, x: int, y: int)
    requires Apart(b) && Reshuffled(b, b', x) && y in b.data + b.gc + b.free
    ensures y in b'.data + b'.gc + b'.free || (b'.rw != b.rw && y == x)
  {
    ApartFacts(b);
    assert Places(b', y) == Places(b, y) >= 1;
    assert y in b'.data + b'.gc + b'.free + b'.rw;
  }

  // ------------------------------------------------ what the victims see of it

  lemma HandInc(s: Flash, g: Inc, t: int, o: int)
    requires IncInv(s, g) && 0 <= t < |s.table| && 0 <= o < |s.table| && t != o
    requires s.table[t].Nand? && !s.table[o].Nand? && !IsVictim(g, s.table[t].blk)
    requires Shaped(HandOver(s, t, o)) && Placed(HandOver(s, t, o))
    ensures IncInv(HandOver(s, t, o), g)
  {
    HandVictims(s, g, t, o);
  }

  lemma HandVictims(s: Flash, g: Inc, t: int, o: int)
    requires IncInv(s, g) && 0 <= t < |s.table| && 0 <= o < |s.table| && t != o
    requires s.table[t].Nand? && !s.table[o].Nand? && !IsVictim(g, s.table[t].blk)
    requires Shaped(HandOver(s, t, o)) && Placed(HandOver(s, t, o))
    ensures VictimsOk(HandOver(s, t, o), g)
  {
    var s' := HandOver(s, t, o);
    forall v | v in g.victims
      ensures LiveIn(s'.table, Blk(g.bank, v)) == LiveIn(s.table, Blk(g.bank, v))
    {
    }
  }

  lemma FillInc(s: Flash, s': Flash, g: Inc, slots: seq<Slot>, x: Blk, p: int)
    requires IncInv(s, g) && Fresh(s, slots) && x in s.vcount && Filled(s, s', slots, x, p)
    requires (x, p) !in s.nand && !IsVictim(g, x)
    requires Shaped(s') && Placed(s')
    ensures IncInv(s', g)
  {
    hide Entries, Covered, VictimsOk, ReadingOk;
    FillEntries(s, s', g, slots, x, p);
    FillVictims(s, s', g, slots, x, p);
    FillReading(s, s', g, slots, x, p);
  }

  lemma FillEntries(s: Flash, s': Flash, g: Inc, slots: seq<Slot>, x: Blk, p: int)
    requires IncInv(s, g) && Fresh(s, slots) && x in s.vcount && Filled(s, s', slots, x, p)
    requires (x, p) !in s.nand && !IsVictim(g, x)
    requires Shaped(s') && Placed(s')
    ensures Entries(s', g) && Covered(s', g)
  {
    hide VictimsOk, ReadingOk;
    forall l | 0 <= l < |s.table| && (s.table[l].Nand? || (s'.table[l].Nand? && s'.table[l].blk != x))
      ensures s'.table[l] == s.table[l]
    {
      FilledPlace(s, s', slots, x, p, l);
    }
  }

  lemma FillVictims(s: Flash, s': Flash, g: Inc, slots: seq<Slot>, x: Blk, p: int)
    requires IncInv(s, g) && Fresh(s, slots) && x in s.vcount && Filled(s, s', slots, x, p)
    requires (x, p) !in s.nand && !IsVictim(g, x)
    requires Shaped(s') && Placed(s')
    ensures VictimsOk(s', g)
  {
    hide Entries, Covered, ReadingOk;
    forall v | v in g.victims
      ensures Counted(s', Blk(g.bank, v)) && Carried(s', Blk(g.bank, v))
    {
      FilledLive(s, s', slots, x, p, Blk(g.bank, v));
      forall l | l in LiveIn(s'.table, Blk(g.bank, v))
        ensures Effective(CellAt(s', s'.table[l])) == l
      {
        FilledPlace(s, s', slots, x, p, l);
      }
    }
  }

  lemma FillReading(s: Flash, s': Flash, g: Inc, slots: seq<Slot>, x: Blk, p: int)
    requires IncInv(s, g) && Fresh(s, slots) && x in s.vcount && Filled(s, s', slots, x, p)
    requires (x, p) !in s.nand && !IsVictim(g, x)
    requires Shaped(s') && Placed(s')
    ensures ReadingOk(s', g)
  {
    hide Entries, Covered, VictimsOk;
    if g.reading {
      assert IsVictim(g, Cur(g));
      forall q: Place | InBlock(q) && q.blk == Cur(g) && Pos(q) >= g.at && q in s'.bits && (q.blk, q.page) in s'.nand
                        && Effective(CellAt(s', q)) != INVALID_LPN
        ensures s'.table[Effective(CellAt(s', q))] == q
      {
        FillCell(s, s', slots, x, p, q);
        assert s.table[Effective(CellAt(s, q))] == q;
        FilledPlace(s, s', slots, x, p, Effective(CellAt(s, q)));
      }
    }
  }

  lemma OutsideInc(s: Flash, s': Flash, g: Inc, touched: set<Blk>)
    requires IncInv(s, g) && MeaningKept(s, s', touched) && forall v :: v in g.victims ==> Blk(g.bank, v) !in touched
    ensures IncInv(s', g)
  {
    hide Exact, Injective;
    OutsideVictims(s, s', g, touched);
    OutsideReading(s, s', g, touched);
    hide VictimsOk, ReadingOk;
  }

  lemma OutsideVictims(s: Flash, s': Flash, g: Inc, touched: set<Blk>)
    requires IncInv(s, g) && MeaningKept(s, s', touched) && forall v :: v in g.victims ==> Blk(g.bank, v) !in touched
    ensures VictimsOk(s', g)
  {
    hide Exact, Injective, Entries, Covered, ReadingOk, SameMeaning;
    forall v | v in g.victims
      ensures Counted(s', Blk(g.bank, v)) && Carried(s', Blk(g.bank, v))
    {
      LiveOutside(s, s', touched, Blk(g.bank, v));
    }
  }

  lemma OutsideReading(s: Flash, s': Flash, g: Inc, touched: set<Blk>)
    requires IncInv(s, g) && MeaningKept(s, s', touched) && forall v :: v in g.victims ==> Blk(g.bank, v) !in touched
    ensures ReadingOk(s', g)
  {
    hide Exact, Injective, Entries, Covered, VictimsOk, SameMeaning;
    if g.reading { assert Cur(g).no in g.victims; }
  }

  // ------------------------------------------------ the counts of live pages

  lemma LiveCount(s: Flash, n: int, b: Bank, c: Cursors, start: int, g: Inc, l: int)
    requires RestOk(s, n, b, c, start) && IncInv(s, g) && g.victims == b.victims && g.bank == n
    requires 0 <= l < |s.table| && s.table[l].Nand? && s.table[l].blk.bank == n
    ensures s.table[l].blk in s.vcount && 0 < s.vcount[s.table[l].blk] <= BLK_LPAGES && s.table[l].blk.no < NO_BLOCK
  {
    hide IncInv, Injective, LogOk, CursorOk, FreeBlk, Exact, Places;
    var y := s.table[l].blk;
    assert l in LiveIn(s.table, y);
    IncVictims(s, g);
    assert y.no in b.data + b.rw + b.victims && y.no in All(b);
    if y.no in b.data {
      assert BlockOk(s, Blk(n, y.no), c.sw, c.rw, c.jn, c.gc);
    } else if y.no in b.rw {
      assert LogBlk(s, Blk(n, y.no), start);
    }
    assert Counted(s, y);
    CountPositive(s, y, l);
  }

  lemma CountPositive(s: Flash, y: Blk, l: int)
    requires Shaped(s) && Placed(s) && Injective(s.table) && l in LiveIn(s.table, y)
    ensures 0 < |LiveIn(s.table, y)| <= BLK_LPAGES
  {
    LiveFits(s, y);
  }

  lemma IncVictims(s: Flash, g: Inc)
    requires IncInv(s, g)
    ensures forall v :: v in g.victims ==> Counted(s, Blk(g.bank, v))
  {
  }

  lemma KeptPreserved(s: Flash, s': Flash, touched: set<Blk>)
    requires MeaningKept(s, s', touched)
    ensures Preserved(s, s')
  {
  }

  // The slots are as fit for writing as before the allocation.
  lemma ProperKept(s: Flash, s': Flash, touched: set<Blk>, slots: seq<Slot>, start: int, kind: WriteType)
    requires MeaningKept(s, s', touched) && Proper(s, slots, start, kind)
    ensures Proper(s', slots, start, kind)
  {
  }

  // After a collection the data list holds no block that was free.
  lemma DataFrom(b: Bank, b': Bank, x: int)
    requires Apart(b) && Reshuffled(b, b', x) && (b.free == [] || b'.data == b.data)
    ensures forall y :: y in b'.data ==> y in b.data + b.gc
  {
    ApartFacts(b);
    forall y | y in b'.data
      ensures y in b.data + b.gc
    {
      if b'.data != b.data {
        assert Places(b', y) == Places(b, y) <= 1;
        assert y in b.data || y in b.gc || y in b.rw || y in b.jn || y in b.victims || y in b.meta || y in b.maps;
      }
    }
  }

  // What the host reads: the pages written have their slots' data, the others
  // what they had.
  ghost predicate Written(s: Flash, s': Flash, slots: seq<Slot>) {
    && Shaped(s) && Placed(s) && Shaped(s') && Placed(s') && |s'.table| == |s.table|
    && (forall i :: 0 <= i < |slots| && slots[i].req != INVALID_LPN ==>
          0 <= slots[i].req < |s.table| && Resolve(s', slots[i].req) == Stored(slots[i].data))
    && (forall l :: 0 <= l < |s.table| && (forall i :: 0 <= i < |slots| ==> slots[i].req != l) ==>
      Resolve(s', l) == Resolve(s, l))
  }

  lemma FillWritten(s0: Flash, s: Flash, s': Flash, slots: seq<Slot>, x: Blk, p: int)
    requires Preserved(s0, s)
    requires Fresh(s, slots) && x in s.vcount && Filled(s, s', slots, x, p) && (x, p) !in s.nand && Shaped(s')
    requires Placed(s')
    requires 0 <= p < PAGES_PER_BLK
    ensures Written(s0, s', slots)
  {
    forall i | 0 <= i < |slots| && slots[i].req != INVALID_LPN
      ensures 0 <= slots[i].req < |s.table| && Resolve(s', slots[i].req) == Stored(slots[i].data)
    {
      assert i in Named(slots) && s'.table[slots[i].req] == Nand(x, p, i);
      FillCell(s, s', slots, x, p, Nand(x, p, i));
    }
    forall l | 0 <= l < |s.table| && (forall i :: 0 <= i < |slots| ==> slots[i].req != l)
      ensures Resolve(s', l) == Resolve(s0, l)
    {
      FilledPlace(s, s', slots, x, p, l);
      assert Resolve(s, l) == Resolve(s0, l);
    }
  }

  lemma HalfVictims(s: Flash, n: int, b: Bank, c: Cursors, start: int, kind: WriteType, g: Inc)
    requires HostHalf(s, n, b, c, start, kind) && g.victims == b.victims && g.bank == n
    ensures !IsVictim(g, Blk(n, HostPage(c, kind) / PAGES_PER_BLK))
  {
    ApartFacts(b);
  }

  // There is room in the block for the superpage.
  lemma HalfCount(s: Flash, n: int, b: Bank, c: Cursors, start: int, kind: WriteType, slots: seq<Slot>)
    requires HostHalf(s, n, b, c, start, kind) && |slots| == SLOTS
    ensures var x := Blk(n, HostPage(c, kind) / PAGES_PER_BLK);
      x in s.vcount && 0 <= s.vcount[x] + |Named(slots)| <= BLK_LPAGES
  {
    HalfShape(s, n, b, c, start, kind);
    RoomInBlock(s, Blk(n, HostPage(c, kind) / PAGES_PER_BLK), HostPage(c, kind) % PAGES_PER_BLK);
    InjectionBound(Named(slots), i => i, SLOTS);
  }

  // Without cleanness the law is broken.
  lemma RestNeedsClean(s: Flash, s': Flash, slots: seq<Slot>, n: int, b: Bank, c: Cursors, start: int, kind: WriteType)
    requires HostHalf(s, n, b, c, start, kind) && Proper(s, slots, start, kind)
    requires var x, p := Blk(n, HostPage(c, kind) / PAGES_PER_BLK), HostPage(c, kind) % PAGES_PER_BLK;
      x in s.vcount && Filled(s, s', slots, x, p)
    ensures var x, p := Blk(n, HostPage(c, kind) / PAGES_PER_BLK), HostPage(c, kind) % PAGES_PER_BLK;
      (RestOk(s', n, b, c, start) <==> Clean(s, slots, x, p)) && (Clean(s', slots, x, p) <==> Clean(s, slots, x, p))
  {
    hide Pending, RwPending, BitsOk, Housed, Injective, Gentle, Legible, Blank, Tidy, BankOk, Exact, LogBlk, Proper;
    var x, p := Blk(n, HostPage(c, kind) / PAGES_PER_BLK), HostPage(c, kind) % PAGES_PER_BLK;
    HalfShape(s, n, b, c, start, kind);
    ProperFresh(s, slots, start, kind);
    FilledPlaced(s, s', slots, x, p);
    CleanSame(s, s', slots, x, p);
    CleanNeeded(s, s', slots, start, x, p, kind);
    if Clean(s, slots, x, p) {
      FillRest(s, s', slots, n, b, c, start, kind);
    } else {
      if kind == SW { HalfBits(s, n, b, start, x); }
      if RestOk(s', n, b, c, start) {
        BankShaped(s', n, b, c);
        HalfBits(s', n, b, start, x);
      }
    }
  }

  lemma CleanSame(s: Flash, s': Flash, slots: seq<Slot>, x: Blk, p: int)
    requires x in s.vcount && Filled(s, s', slots, x, p)
    ensures Clean(s', slots, x, p) <==> Clean(s, slots, x, p)
  {
  }

  lemma HalfBits(s: Flash, n: int, b: Bank, start: int, x: Blk)
    requires Shaped(s) && Placed(s) && BitsOk(s, n, b, start) && x.bank == n
    ensures x.no in b.data ==> Exact(s, x)
    ensures x.no in b.rw ==> LogBlk(s, x, start)
  {
  }


  // The lists the allocator works on are those of the bank without the victims.
  lemma TrimRest(s: Flash, n: int, b: Bank, c: Cursors, start: int)
    requires RestOk(s, n, b, c, start)
    ensures BankOk(s, n, Trim(b), c) && |b.gc| <= 1 && VC_MAX !in b.gc && Apart(b)
    ensures forall x :: x in b.victims ==> 0 <= x < NO_BLOCK
    ensures forall v :: v in b.victims ==> Blk(n, v) !in Reachable(n, b)
  {
    assert forall x :: x in b.gc || x in b.victims ==> x in All(b);
    TrimOk(s, n, b, c);
    ApartFacts(b);
  }

  lemma CollectFrom(b: Bank, vt: int)
    requires Apart(b) && vt in b.data && |b.gc| == 1
    ensures forall y :: y in Apply(b, Collect(vt)).data ==> y in b.data + b.gc
  {
    ApartFacts(b);
    WithoutFacts(b.data, vt);
  }

  lemma DataRest(s: Flash, s': Flash, n: int, b: Bank, b': Bank, c: Cursors, c': Cursors, start: int)
    requires RestOk(s, n, b, c, start) && MeaningKept(s, s', Reachable(n, b)) && Reshuffled(b, b', 0) && b'.rw == b.rw
    requires Pending(s', n, Trim(b'), c')
    requires || b'.data == b.data || (forall y :: y in b'.data ==> y in b.data + b.gc)
             || (b.free != [] && b'.data == b.data + [b.free[0]] && c'.sw == b.free[0] * PAGES_PER_BLK)
    ensures HostHalf(s', n, b', c', start, SW)
  {
    hide BankOk, BitsOk, Housed, Injective, Exact, LogBlk, MeaningKept, Places, Apart, Legible;
    TrimRest(s, n, b, c, start);
    ReshuffledAll(b, b', 0);
    TrimPending(s', n, b', c');
    PendingBlank(s', n, b', c');
    hide Pending, Blank, Reshuffled;
    AllocRest(s, s', n, b, b', c, c', start, 0, SW);
  }

  lemma PendingBlank(s: Flash, n: int, b: Bank, c: Cursors)
    requires Pending(s, n, b, c)
    ensures c.sw % PAGES_PER_BLK == 0 ==> Blank(s, Blk(n, c.sw / PAGES_PER_BLK), 0)
  {
  }

  lemma LogRest(s: Flash, s': Flash, n: int, b: Bank, b': Bank, c: Cursors, c': Cursors, start: int, x: int)
    requires RestOk(s, n, b, c, start) && MeaningKept(s, s', Reachable(n, b)) && Reshuffled(b, b', x)
    requires RwPending(s', n, Trim(b'), c') && (b.free == [] || b'.data == b.data)
    requires b'.rw != b.rw ==> c'.rw == x * PAGES_PER_BLK && FreeBlk(s', Blk(n, x))
    ensures HostHalf(s', n, b', c', start, RW)
  {
    hide BankOk, BitsOk, Housed, Injective, Exact, LogBlk, MeaningKept, Places, Apart, Legible;
    TrimRest(s, n, b, c, start);
    ReshuffledAll(b, b', x);
    TrimPending(s', n, b', c');
    DataFrom(b, b', x);
    RwPendingBlank(s', n, b', c');
    hide RwPending, Blank, FreeBlk, Reshuffled;
    AllocRest(s, s', n, b, b', c, c', start, x, RW);
  }

  lemma RwPendingBlank(s: Flash, n: int, b: Bank, c: Cursors)
    requires RwPending(s, n, b, c)
    ensures var x := Blk(n, c.rw / PAGES_PER_BLK);
      x in s.vcount && s.vcount[x] <= BLK_LPAGES && (c.rw % PAGES_PER_BLK == 0 ==> Blank(s, x, 0))
  {
  }

  // ------------------------------------------------ the entries of the map log

  // The first `i` pages of the buffer have been mapped to superpage `p`.
  ghost predicate MappedUpTo(t0: seq<Place>, t: seq<Place>, g: Inc, b: Blk, p: int, i: int)
    requires |g.lpns| == SLOTS && 0 <= i <= SLOTS
  {
    && |t| == |t0|
    && forall l :: 0 <= l < |t| ==> t[l] == t0[l] || exists j :: 0 <= j < i && g.lpns[j] == l && t[l] == Nand(b, p, j)
  }

  // What set_map_log needs when the `i`-th page is mapped: the page is in a
  // block of the bank, and the address it goes to lies in the block written to
  // and is nobody's.
  lemma LogReady(s: Flash, g: Inc, b: Blk, p: int, entries: seq<nat>, i: int)
    requires IncInv(s, g) && WriteTarget(s, g, b, p) && b.bank == g.bank && 0 <= i < SLOTS && g.lpns[i] != INVALID_LPN
    requires Addresses.Exists(Nand(b, p, i)) && forall l :: 0 <= l < |entries| ==> Addresses.Entry(entries[l])
    requires MappedUpTo(s.table, Addresses.Places(entries), g, b, p, i)
    ensures 0 <= g.lpns[i] < |entries| && entries[g.lpns[i]] / Addresses.LPAGES_PER_BANK == g.bank
    ensures var v := Addresses.Encode(Nand(b, p, i)); v / BLK_LPAGES == b.bank * Addresses.BLKS + b.no && v !in entries
  {
    hide VictimsOk, ReadingOk, Covered;
    var t, l := Addresses.Places(entries), g.lpns[i];
    assert s.table[l] == g.origin[i];
    Addresses.BlockOfEntry(Nand(b, p, i));
    Addresses.SetPlace(entries, l, Nand(b, p, i));
    Addresses.BlockOfEntry(t[l]);
    forall m | 0 <= m < |t|
      ensures t[m] != Nand(b, p, i)
    {
    }
  }

  // ------------------------------------------------ what the host sees

  // What the host and the collector do, in any order.
  datatype Action =
    | Overwrites(lpn: int, q: Place)                 // the old page of `lpn` is let go
    | Remaps(t: int, o: int)                         // a pair whose page is in flash
    | Finishes(block: int)                           // the last awaited remap of a log block
    | Writes(kind: WriteType, slots: seq<Slot>)      // a full write buffer
    | Collects                                       // one call of do_incremental_GC

  // What each address reads in flash.
  ghost function Contents(s: Flash): (m: seq<Reading>)
    requires Shaped(s) && Placed(s)
    ensures |m| == |s.table|
  {
    seq(|s.table|, l requires 0 <= l < |s.table| =>
      if s.table[l].Nand? then Some(CellAt(s, s.table[l]).data) else NoData)
  }

  ghost function Stores(slots: seq<Slot>, l: int, d: Reading): Reading {
    if exists i :: 0 <= i < |slots| && slots[i].req != INVALID_LPN && slots[i].req == l then
      var i :| 0 <= i < |slots| && slots[i].req != INVALID_LPN && slots[i].req == l;
      Some(slots[i].data)
    else d
  }

  // What an action does to that; collecting does nothing to it.
  ghost function Effect(m: seq<Reading>, a: Action): (m': seq<Reading>)
    ensures |m'| == |m|
  {
    match a
    case Overwrites(l, _) => if 0 <= l < |m| then m[l := NoData] else m
    case Remaps(t, o) => if 0 <= t < |m| && 0 <= o < |m| then m[t := NoData][o := m[t]] else m
    case Finishes(_) => m
    case Writes(_, slots) => seq(|m|, l requires 0 <= l < |m| => Stores(slots, l, m[l]))
    case Collects => m
  }

  ghost function Effects(m: seq<Reading>, actions: seq<Action>): (m': seq<Reading>)
    ensures |m'| == |m|
  {
    if actions == [] then m else Effect(Effects(m, actions[..|actions| - 1]), actions[|actions| - 1])
  }

  lemma EffectsNone(m: seq<Reading>, actions: seq<Action>)
    ensures Effects(m, actions[..0]) == m
  {
  }

  lemma EffectsStep(m: seq<Reading>, actions: seq<Action>, i: int)
    requires 0 <= i < |actions|
    ensures Effects(m, actions[..i + 1]) == Effect(Effects(m, actions[..i]), actions[i])
  {
    assert actions[..i + 1][..i] == actions[..i];
  }

  lemma OverwriteEffect(s: Flash, s': Flash, l: int, q: Place)
    requires Shaped(s) && Placed(s) && Shaped(s') && Placed(s') && 0 <= l < |s.table| && !q.Nand?
    requires s'.table == s.table[l := q] && s'.nand == s.nand
    ensures Contents(s') == Effect(Contents(s), Overwrites(l, q))
  {
  }

  lemma RemapEffect(s: Flash, s': Flash, t: int, o: int)
    requires Shaped(s) && Placed(s) && Shaped(s') && Placed(s') && Agrees(s, t, o) && t != o
    requires s'.table == s.table[t := Unmapped][o := s.table[t]] && s'.nand == s.nand
    ensures Contents(s') == Effect(Contents(s), Remaps(t, o))
  {
  }

  lemma PreservedEffect(s: Flash, s': Flash)
    requires Preserved(s, s')
    ensures Contents(s') == Contents(s)
  {
    forall l | 0 <= l < |s.table|
      ensures Contents(s')[l] == Contents(s)[l]
    {
      assert Resolve(s', l) == Resolve(s, l);
    }
  }

  lemma WriteEffect(s: Flash, s': Flash, kind: WriteType, slots: seq<Slot>)
    requires Written(s, s', slots) && DistinctReqs(slots) && |s.table| <= INVALID_LPN
    ensures Contents(s') == Effect(Contents(s), Writes(kind, slots))
  {
    var m := Contents(s);
    forall l | 0 <= l < |s.table|
      ensures Contents(s')[l] == Stores(slots, l, m[l])
    {
      if i :| 0 <= i < |slots| && slots[i].req != INVALID_LPN && slots[i].req == l {
        assert Resolve(s', slots[i].req) == Stored(slots[i].data);
        assert forall j :: 0 <= j < |slots| && slots[j].req != INVALID_LPN && slots[j].req == l ==> j == i;
      } else {
        StillRead(s, s', slots, l);
      }
    }
  }

  lemma StillRead(s: Flash, s': Flash, slots: seq<Slot>, l: int)
    requires Written(s, s', slots) && 0 <= l < |s.table| && |s.table| <= INVALID_LPN
    requires forall i :: 0 <= i < |slots| && slots[i].req != INVALID_LPN ==> slots[i].req != l
    ensures Contents(s')[l] == Contents(s)[l]
  {
    assert Resolve(s', l) == Resolve(s, l);
  }
}
