/** Incremental garbage collection (ATLWrapper.cpp:2579-3009), on values: what
    the victim list, the read position and the buffer say about live pages. */
module IncModel {
  import opened Layout
  import opened SetSizes
  import opened FlashState
  import opened GcModel
  import opened BufferState
  import opened BufferFlush
  import opened GcSpace

  // The order in which the halves of a victim's pages are read: plane by plane.
  ghost function Pos(p: Place): int
    requires p.Nand?
  {
    ((p.slot / 2) * PAGES_PER_BLK + p.page) * 2 + p.slot % 2
  }

  // The collector's state: victims in list order, the block being read (the
  // last of them) and the position in it, and the buffer's entries with the
  // places they were read from.
  datatype Inc = Inc(bank: int, victims: seq<int>, reading: bool, at: int,
                     lpns: seq<int>, origin: seq<Place>, data: seq<Data>)

  ghost function Cur(g: Inc): Blk
    requires g.victims != []
  {
    Blk(g.bank, g.victims[|g.victims| - 1])
  }

  ghost predicate IsVictim(g: Inc, b: Blk) {
    b.bank == g.bank && b.no in g.victims
  }

  // Still to be read.
  ghost predicate Unread(g: Inc, p: Place) {
    g.reading && g.victims != [] && p.Nand? && p.blk == Cur(g) && Pos(p) >= g.at
  }

  ghost predicate Entries(s: Flash, g: Inc)
    requires Shaped(s) && Placed(s)
  {
    && |g.lpns| == |g.origin| == |g.data| <= SLOTS
    && (forall i :: 0 <= i < |g.lpns| && g.lpns[i] != INVALID_LPN ==>
          && 0 <= g.lpns[i] < |s.table| && s.table[g.lpns[i]] == g.origin[i]
          && g.origin[i].Nand? && IsVictim(g, g.origin[i].blk) && !Unread(g, g.origin[i])
          && Resolve(s, g.lpns[i]) == Stored(g.data[i]))
    && (forall i, j :: 0 <= i < j < |g.lpns| && g.lpns[i] != INVALID_LPN ==> g.lpns[i] != g.lpns[j])
  }

  // Every live page of a victim is either unread or in the buffer.
  ghost predicate Covered(s: Flash, g: Inc) {
    forall l :: 0 <= l < |s.table| && s.table[l].Nand? && IsVictim(g, s.table[l].blk) ==>
      Unread(g, s.table[l]) || l in g.lpns
  }

  // A victim's count is the number of its live pages, read or not.
  ghost predicate VictimsOk(s: Flash, g: Inc)
    requires Shaped(s) && Placed(s)
  {
    && NoDup(g.victims)
    && (forall v :: v in g.victims ==> Counted(s, Blk(g.bank, v)) && Carried(s, Blk(g.bank, v)))
  }

  // From position `from` on, a set bit and an address mean a live page.
  ghost predicate ExactFrom(s: Flash, b: Blk, from: int)
    requires Shaped(s)
  {
    forall p: Place :: InBlock(p) && p.blk == b && Pos(p) >= from && p in s.bits && (b, p.page) in s.nand
                       && Effective(CellAt(s, p)) != INVALID_LPN ==>
      s.table[Effective(CellAt(s, p))] == p
  }

  ghost predicate ReadingOk(s: Flash, g: Inc)
    requires Shaped(s)
  {
    g.reading ==>
      && g.victims != [] && 0 <= g.at <= BLK_LPAGES
      && ExactFrom(s, Cur(g), g.at) && Legible(s, Cur(g), PAGES_PER_BLK)
  }

  ghost predicate IncInv(s: Flash, g: Inc) {
    && Shaped(s) && Placed(s) && |s.table| <= INVALID_LPN
    && Entries(s, g) && Covered(s, g) && VictimsOk(s, g) && ReadingOk(s, g)
  }

  // The entries read from the current victim that are still live.
  ghost function FromCurrent(g: Inc): set<int> {
    set i | 0 <= i < |g.lpns| && i < |g.origin| && g.lpns[i] != INVALID_LPN && g.victims != []
      && g.origin[i].Nand? && g.origin[i].blk == Cur(g)
  }

  // ------------------------------------------------ erase safety

  // A victim whose count is zero has no live page, in flash or in the buffer.
  lemma EraseSafe(s: Flash, g: Inc, v: int)
    requires IncInv(s, g) && v in g.victims && s.vcount[Blk(g.bank, v)] == 0
    ensures forall l :: 0 <= l < |s.table| && s.table[l].Nand? ==> s.table[l].blk != Blk(g.bank, v)
    ensures forall i :: 0 <= i < |g.lpns| && g.lpns[i] != INVALID_LPN ==> g.origin[i].blk != Blk(g.bank, v)
  {
  }

  // ------------------------------------------------ the host lets go of a page

  // The buffered copy of `l` is blanked.
  ghost function Blanking(g: Inc, l: int): Inc {
    g.(lpns := seq(|g.lpns|, i requires 0 <= i < |g.lpns| => if g.lpns[i] == l then INVALID_LPN else g.lpns[i]))
  }

  lemma BlankNone(g: Inc, l: int)
    requires forall j :: 0 <= j < |g.lpns| ==> g.lpns[j] != l
    ensures Blanking(g, l) == g
  {
  }

  lemma BlankOne(s: Flash, g: Inc, l: int, i: int)
    requires Shaped(s) && Placed(s) && Entries(s, g) && |s.table| <= INVALID_LPN
    requires 0 <= i < |g.lpns| && 0 <= l < |s.table| && g.lpns[i] == l
    ensures Blanking(g, l) == g.(lpns := g.lpns[i := INVALID_LPN]) && g.origin[i] == s.table[l]
    ensures FromCurrent(Blanking(g, l)) == FromCurrent(g) - {i}
    ensures i in FromCurrent(g) <==> g.victims != [] && s.table[l].Nand? && s.table[l].blk == Cur(g)
    ensures |FromCurrent(Blanking(g, l))| == |FromCurrent(g)| - (if i in FromCurrent(g) then 1 else 0)
  {
  }

  lemma LetGoOk(s: Flash, g: Inc, l: int, q: Place)
    requires IncInv(s, g) && 0 <= l < |s.table| && s.table[l].Nand? && s.table[l].blk in s.vcount
    requires q.Nand? ==> InBlock(q) && q in s.bits && (q.blk, q.page) in s.nand
    requires q.Nand? ==> !IsVictim(g, q.blk) && q.blk != s.table[l].blk
    requires forall m :: 0 <= m < |s.table| && m != l ==> s.table[m] != s.table[l]
    ensures IncInv(LetGo(s, l, q), Blanking(g, l))
  {
    LetGoEntries(s, g, l, q);
    LetGoVictims(s, g, l, q);
  }

  lemma LetGoEntries(s: Flash, g: Inc, l: int, q: Place)
    requires IncInv(s, g) && 0 <= l < |s.table| && s.table[l].Nand? && s.table[l].blk in s.vcount
    requires q.Nand? ==> InBlock(q) && q in s.bits && (q.blk, q.page) in s.nand
    requires q.Nand? ==> !IsVictim(g, q.blk) && q.blk != s.table[l].blk
    requires forall m :: 0 <= m < |s.table| && m != l ==> s.table[m] != s.table[l]
    ensures var s', g' := LetGo(s, l, q), Blanking(g, l);
      Shaped(s') && Placed(s') && Entries(s', g') && Covered(s', g') && ReadingOk(s', g')
  {
  }

  lemma LetGoVictims(s: Flash, g: Inc, l: int, q: Place)
    requires IncInv(s, g) && 0 <= l < |s.table| && s.table[l].Nand? && s.table[l].blk in s.vcount
    requires (q.Nand? ==> InBlock(q) && (q.blk, q.page) in s.nand && !IsVictim(g, q.blk) && q.blk != s.table[l].blk)
    requires Shaped(LetGo(s, l, q)) && Placed(LetGo(s, l, q))
    ensures VictimsOk(LetGo(s, l, q), Blanking(g, l))
  {
    hide Entries, Covered, ReadingOk;
    var s' := LetGo(s, l, q);
    forall v | v in g.victims
      ensures Counted(s', Blk(g.bank, v)) && Carried(s', Blk(g.bank, v))
    {
      LiveDrop(s.table, l, q, Blk(g.bank, v));
    }
  }

  // ------------------------------------------------ reading

  lemma PosInjective(p: Place, q: Place)
    requires InBlock(p) && InBlock(q) && p.blk == q.blk && Pos(p) == Pos(q)
    ensures p == q
  {
  }

  // The test made with the bitmap finds exactly the live halves.
  lemma BitmapExact(s: Flash, g: Inc, p: Place)
    requires IncInv(s, g) && g.reading && InBlock(p) && p.blk == Cur(g) && Pos(p) >= g.at
    ensures p in s.bits ==> (p.blk, p.page) in s.nand
    ensures (p.blk, p.page) in s.nand ==> |s.nand[(p.blk, p.page)]| == SLOTS
    ensures p in s.bits && Effective(CellAt(s, p)) != INVALID_LPN ==>
      0 <= Effective(CellAt(s, p)) < |s.table| && s.table[Effective(CellAt(s, p))] == p
    ensures p in s.bits && Effective(CellAt(s, p)) == INVALID_LPN ==> forall l :: 0 <= l < |s.table| ==> s.table[l] != p
    ensures p !in s.bits ==> forall l :: 0 <= l < |s.table| ==> s.table[l] != p
  {
    forall l | 0 <= l < |s.table| && s.table[l] == p
      ensures p in s.bits && Effective(CellAt(s, p)) == l
    {
      assert IsVictim(g, p.blk) && l in LiveIn(s.table, p.blk);
    }
  }

  lemma SkipHalf(s: Flash, g: Inc, p: Place)
    requires IncInv(s, g) && g.reading && InBlock(p) && p.blk == Cur(g) && Pos(p) == g.at
    requires forall l :: 0 <= l < |s.table| ==> s.table[l] != p
    ensures IncInv(s, g.(at := g.at + 1))
  {
    hide Entries, VictimsOk, ExactFrom, Legible;
    var g' := g.(at := g.at + 1);
    forall q: Place | q.Nand? && InBlock(q) && q.blk == Cur(g) && q != p
      ensures Unread(g', q) <==> Unread(g, q)
    {
      if Pos(q) == Pos(p) { PosInjective(p, q); }
    }
    PosBound(p);
    SkipEntries(s, g, p);
  }

  lemma PosBound(p: Place)
    requires InBlock(p)
    ensures 0 <= Pos(p) < BLK_LPAGES
  {
  }

  lemma SkipEntries(s: Flash, g: Inc, p: Place)
    requires IncInv(s, g) && g.reading && InBlock(p) && p.blk == Cur(g) && Pos(p) == g.at
    ensures var g' := g.(at := g.at + 1); Entries(s, g') && VictimsOk(s, g') && ExactFrom(s, Cur(g'), g'.at)
  {
  }

  // A live half enters the buffer.
  ghost function Taken(g: Inc, l: int, p: Place, d: Data): Inc {
    g.(at := g.at + 1, lpns := g.lpns + [l], origin := g.origin + [p], data := g.data + [d])
  }

  lemma TakeHalf(s: Flash, g: Inc, p: Place, l: int, d: Data)
    requires IncInv(s, g) && g.reading && InBlock(p) && p.blk == Cur(g) && Pos(p) == g.at && |g.lpns| < SLOTS
    requires 0 <= l < |s.table| && s.table[l] == p && Resolve(s, l) == Stored(d)
    ensures IncInv(s, Taken(g, l, p, d))
    ensures forall i :: i in FromCurrent(Taken(g, l, p, d)) <==> i in FromCurrent(g) || i == |g.lpns|
  {
    hide Entries, Covered, ExactFrom, Legible, Shaped, Placed, Resolve, Carried, Counted;
    var g' := Taken(g, l, p, d);
    TakeEntries(s, g, p, l, d);
    TakeCovered(s, g, p, l, d);
    PosBound(p);
    SkipEntries(s, g, p);
  }

  lemma TakeEntries(s: Flash, g: Inc, p: Place, l: int, d: Data)
    requires IncInv(s, g) && g.reading && InBlock(p) && p.blk == Cur(g) && Pos(p) == g.at && |g.lpns| < SLOTS
    requires 0 <= l < |s.table| && s.table[l] == p && Resolve(s, l) == Stored(d)
    ensures Entries(s, Taken(g, l, p, d))
  {
    hide VictimsOk, Covered, ExactFrom, Legible;
    forall i | 0 <= i < |g.lpns| && g.lpns[i] != INVALID_LPN
      ensures g.lpns[i] != l
    {
      assert !Unread(g, g.origin[i]) && Unread(g, p);
    }
  }

  lemma TakeCovered(s: Flash, g: Inc, p: Place, l: int, d: Data)
    requires IncInv(s, g) && g.reading && InBlock(p) && p.blk == Cur(g) && Pos(p) == g.at && |g.lpns| < SLOTS
    requires 0 <= l < |s.table| && s.table[l] == p
    ensures Covered(s, Taken(g, l, p, d))
  {
    hide Entries, ExactFrom, Legible;
    var g' := Taken(g, l, p, d);
    forall m | 0 <= m < |s.table| && s.table[m].Nand? && IsVictim(g, s.table[m].blk) && m !in g.lpns && m != l
      ensures Unread(g', s.table[m])
    {
      var q := s.table[m];
      assert Unread(g, q) && InBlock(q);
      assert m in LiveIn(s.table, p.blk) && l in LiveIn(s.table, p.blk);
      if Pos(q) == Pos(p) {
        PosInjective(p, q);
      }
    }
    assert g'.lpns[|g.lpns|] == l;
    forall m | m in g.lpns
      ensures m in g'.lpns
    {
      var i :| 0 <= i < |g.lpns| && g.lpns[i] == m;
      assert g'.lpns[i] == m;
    }
  }

  // Once every half has been looked at, the current victim's live pages are
  // all in the buffer, and they are as many as it counts.
  lemma AllRead(s: Flash, g: Inc)
    requires IncInv(s, g) && g.reading
    ensures |FromCurrent(g)| <= s.vcount[Cur(g)] == |LiveIn(s.table, Cur(g))|
    ensures |FromCurrent(g)| == |LiveIn(s.table, Cur(g))| ==> forall l :: l in LiveIn(s.table, Cur(g)) ==> l in g.lpns
    ensures g.at == BLK_LPAGES ==> |FromCurrent(g)| == |LiveIn(s.table, Cur(g))|
  {
    var f := (i: int) => if 0 <= i < |g.lpns| then g.lpns[i] else INVALID_LPN;
    var a, live := Image(FromCurrent(g), f), LiveIn(s.table, Cur(g));
    forall i, j | i in FromCurrent(g) && j in FromCurrent(g) && f(i) == f(j)
      ensures i == j
    {
      assert g.lpns[i] == g.lpns[j];
    }
    ImageSize(FromCurrent(g), f);
    assert a <= live;
    SubsetSize(a, live);
    if g.at == BLK_LPAGES {
      forall l | l in live
        ensures l in a
      {
        assert InBlock(s.table[l]);
        PosBound(s.table[l]);
        var i :| 0 <= i < |g.lpns| && g.lpns[i] == l;
        assert i in FromCurrent(g) && f(i) == l;
      }
      SubsetSize(live, a);
    }
  }

  // ------------------------------------------------ writing the buffer

  ghost function SlotsOf(g: Inc): seq<Slot>
    requires |g.lpns| == |g.data|
  {
    seq(|g.lpns|, i requires 0 <= i < |g.lpns| => Slot(g.lpns[i], INVALID_LPN, g.data[i]))
  }

  ghost function Drained(g: Inc): Inc {
    g.(lpns := [], origin := [], data := [])
  }

  // The buffered pages that are still live now live in superpage `p` of `b`,
  // and the victims' counts have followed.
  ghost predicate BufferWritten(s: Flash, s': Flash, g: Inc, b: Blk, p: int)
    requires |g.lpns| == |g.data|
  {
    && MovedTo(s.table, s'.table, SlotsOf(g), b, p)
    && s'.nand == s.nand[(b, p) := Cells(SlotsOf(g))]
    && (forall x :: x in s'.bits <==> x in s.bits || InPage(x, b, p, SlotsOf(g)))
    && (forall v :: v in g.victims ==> Counted(s', Blk(g.bank, v)))
    && (forall c :: c in s.vcount && !IsVictim(g, c) && c != b ==> c in s'.vcount && s'.vcount[c] == s.vcount[c])
    && b in s.vcount && b in s'.vcount && s'.vcount[b] == s.vcount[b] + |Named(SlotsOf(g))|
  }

  ghost predicate WriteTarget(s: Flash, g: Inc, b: Blk, p: int) {
    && (b, p) !in s.nand && 0 <= p < PAGES_PER_BLK && !IsVictim(g, b) && |g.lpns| == |g.data| == |g.origin| == SLOTS
  }

  lemma SlotsFacts(s: Flash, g: Inc)
    requires Shaped(s) && Placed(s) && Entries(s, g) && |g.lpns| == SLOTS
    ensures |SlotsOf(g)| == SLOTS && DistinctReqs(SlotsOf(g))
    ensures forall l :: l in Reqs(SlotsOf(g)) <==> l in g.lpns && l != INVALID_LPN
    ensures forall i :: i in Named(SlotsOf(g)) <==> 0 <= i < SLOTS && g.lpns[i] != INVALID_LPN
    ensures forall i :: 0 <= i < SLOTS ==> SlotsOf(g)[i] == Slot(g.lpns[i], INVALID_LPN, g.data[i])
  {
    var slots := SlotsOf(g);
    forall l | l in g.lpns && l != INVALID_LPN
      ensures l in Reqs(slots)
    {
      var i :| 0 <= i < SLOTS && g.lpns[i] == l;
      assert slots[i].req == l;
      assert i in Named(slots);
    }
  }

  // The place of a page after the write.
  lemma WrittenPlace(s: Flash, s': Flash, g: Inc, b: Blk, p: int, l: int)
    requires Shaped(s) && Placed(s) && Entries(s, g) && WriteTarget(s, g, b, p) && BufferWritten(s, s', g, b, p)
    requires 0 <= l < |s.table| <= INVALID_LPN
    ensures |s'.table| == |s.table|
    ensures l !in g.lpns ==> s'.table[l] == s.table[l]
    ensures l in g.lpns ==>
      exists i :: 0 <= i < SLOTS && g.lpns[i] == l && s'.table[l] == Nand(b, p, i) && s.table[l] == g.origin[i]
  {
  }

  lemma WriteMeaning(s: Flash, s': Flash, g: Inc, b: Blk, p: int)
    requires IncInv(s, g) && WriteTarget(s, g, b, p) && BufferWritten(s, s', g, b, p)
    ensures Shaped(s') && Placed(s') && SameMeaning(s, s')
  {
  }

  lemma WriteOk(s: Flash, s': Flash, g: Inc, b: Blk, p: int)
    requires IncInv(s, g) && WriteTarget(s, g, b, p) && BufferWritten(s, s', g, b, p)
    ensures IncInv(s', Drained(g)) && Shaped(s) && Placed(s) && Shaped(s') && Placed(s') && SameMeaning(s, s')
  {
    hide Counted;
    WriteMeaning(s, s', g, b, p);
    WriteCovered(s, s', g, b, p);
    WriteCarried(s, s', g, b, p);
    WriteReading(s, s', g, b, p);
  }

  lemma WriteCovered(s: Flash, s': Flash, g: Inc, b: Blk, p: int)
    requires IncInv(s, g) && WriteTarget(s, g, b, p) && BufferWritten(s, s', g, b, p)
    ensures Covered(s', Drained(g)) && |s'.table| == |s.table|
  {
    hide VictimsOk, ReadingOk, Counted;
    forall l | 0 <= l < |s.table| && s'.table[l].Nand? && IsVictim(g, s'.table[l].blk)
      ensures Unread(Drained(g), s'.table[l])
    {
      WrittenPlace(s, s', g, b, p, l);
    }
  }

  lemma WriteCarried(s: Flash, s': Flash, g: Inc, b: Blk, p: int)
    requires IncInv(s, g) && WriteTarget(s, g, b, p) && BufferWritten(s, s', g, b, p) && Shaped(s') && Placed(s')
    ensures VictimsOk(s', Drained(g))
  {
  }

  lemma WriteReading(s: Flash, s': Flash, g: Inc, b: Blk, p: int)
    requires IncInv(s, g) && WriteTarget(s, g, b, p) && BufferWritten(s, s', g, b, p) && Shaped(s')
    ensures ReadingOk(s', Drained(g))
  {
  }

  // ------------------------------------------------ the counts follow

  lemma WriteLive(s: Flash, t': seq<Place>, g: Inc, b: Blk, p: int, c: Blk)
    requires IncInv(s, g) && WriteTarget(s, g, b, p) && MovedTo(s.table, t', SlotsOf(g), b, p)
    ensures LiveIn(t', c) == if c == b then LiveIn(s.table, b) + Reqs(SlotsOf(g))
      else LiveIn(s.table, c) - Reqs(SlotsOf(g))
    ensures !IsVictim(g, c) ==> LiveIn(s.table, c) !! Reqs(SlotsOf(g))
    ensures |Reqs(SlotsOf(g))| == |Named(SlotsOf(g))|
  {
    hide Covered, VictimsOk, ReadingOk;
    SlotsFacts(s, g);
    ReqSizes(SlotsOf(g), 0);
    forall l | l in Reqs(SlotsOf(g))
      ensures 0 <= l < |s.table| && s.table[l].Nand? && IsVictim(g, s.table[l].blk)
    {
      var i :| 0 <= i < SLOTS && g.lpns[i] == l;
    }
    MovedLive(s.table, t', SlotsOf(g), b, p, c);
  }

  lemma MovedLive(t: seq<Place>, t': seq<Place>, slots: seq<Slot>, b: Blk, p: int, c: Blk)
    requires MovedTo(t, t', slots, b, p)
    ensures LiveIn(t', c) == if c == b then LiveIn(t, b) + Reqs(slots) else LiveIn(t, c) - Reqs(slots)
  {
  }

  // The buffered live pages of the victims from the `i`-th on.
  ghost function Owed(s: Flash, g: Inc, i: int): set<int>
    requires 0 <= i <= |g.victims| && |g.lpns| == |g.data|
  {
    Reqs(SlotsOf(g)) * LiveInAll(s.table, g.bank, g.victims[i..])
  }

  lemma OwedStep(s: Flash, g: Inc, i: int)
    requires IncInv(s, g) && 0 <= i < |g.victims| && |g.lpns| == |g.data| == SLOTS
    ensures var v := Blk(g.bank, g.victims[i]);
      |Owed(s, g, i)| == |Reqs(SlotsOf(g)) * LiveIn(s.table, v)| + |Owed(s, g, i + 1)|
  {
    hide Entries, Covered, ReadingOk, Reqs, LiveIn;
    var v := Blk(g.bank, g.victims[i]);
    var rest := g.victims[i + 1..];
    assert g.victims[i..] == [g.victims[i]] + rest;
    forall j | 0 <= j < |rest|
      ensures rest[j] != g.victims[i]
    {
      assert rest[j] == g.victims[i + 1 + j];
    }
    FirstAndRest(s.table, g.bank, g.victims[i], rest);
    Halves(Reqs(SlotsOf(g)), LiveIn(s.table, v), LiveInAll(s.table, g.bank, rest));
  }

  lemma FirstAndRest(t: seq<Place>, bank: int, x: int, rest: seq<int>)
    requires x !in rest
    ensures LiveInAll(t, bank, [x] + rest) == LiveIn(t, Blk(bank, x)) + LiveInAll(t, bank, rest)
    ensures LiveIn(t, Blk(bank, x)) !! LiveInAll(t, bank, rest)
  {
  }

  lemma Halves(r: set<int>, a: set<int>, b: set<int>)
    requires a !! b
    ensures |r * (a + b)| == |r * a| + |r * b|
  {
    assert r * (a + b) == r * a + r * b;
    assert r * a !! r * b;
  }

  // All buffered live pages are owed by the victims, and a victim that is not
  // being read owes all its live pages.
  lemma OwedAll(s: Flash, g: Inc)
    requires IncInv(s, g) && |g.lpns| == SLOTS
    ensures Owed(s, g, 0) == Reqs(SlotsOf(g))
    ensures forall i :: 0 <= i < |g.victims| && !(g.reading && i == |g.victims| - 1) ==>
      LiveIn(s.table, Blk(g.bank, g.victims[i])) <= Reqs(SlotsOf(g))
  {
    hide ReadingOk, Shaped, Placed;
    SlotsFacts(s, g);
    assert g.victims[0..] == g.victims;
    forall l | l in Reqs(SlotsOf(g))
      ensures l in LiveInAll(s.table, g.bank, g.victims)
    {
      var i :| 0 <= i < SLOTS && g.lpns[i] == l;
      assert s.table[g.lpns[i]] == g.origin[i];
    }
    forall i, l | 0 <= i < |g.victims| && !(g.reading && i == |g.victims| - 1)
      && l in LiveIn(s.table, Blk(g.bank, g.victims[i]))
      ensures l in Reqs(SlotsOf(g))
    {
      assert g.victims[i] in g.victims && !Unread(g, s.table[l]);
    }
  }

  // The counts in the middle of the drain: those of the first `i` victims are
  // right for the new table `t'`, the others for the old one.
  ghost predicate Draining(s: Flash, t': seq<Place>, g: Inc, i: int, vcount: map<Blk, int>, count: int)
    requires 0 <= i <= |g.victims| && |g.lpns| == |g.data|
  {
    && (forall j :: 0 <= j < |g.victims| ==>
          && Blk(g.bank, g.victims[j]) in vcount
          && vcount[Blk(g.bank, g.victims[j])] == |LiveIn(if j < i then t' else s.table, Blk(g.bank, g.victims[j]))|)
    && count == |Owed(s, g, i)|
  }

  // One step of decrease_vcount_of_vt_block.
  lemma DrainStep(s: Flash, t': seq<Place>, g: Inc, b: Blk, p: int, i: int, vcount: map<Blk, int>, count: int)
    requires IncInv(s, g) && WriteTarget(s, g, b, p) && MovedTo(s.table, t', SlotsOf(g), b, p)
    requires 0 <= i < |g.victims| && Draining(s, t', g, i, vcount, count)
    ensures var v := Blk(g.bank, g.victims[i]);
      && (count > vcount[v] ==> i + 1 < |g.victims| && Draining(s, t', g, i + 1, vcount[v := 0], count - vcount[v]))
      && (count <= vcount[v] ==> forall j :: 0 <= j < |g.victims| ==>
            var w := Blk(g.bank, g.victims[j]);
            w in vcount && vcount[v := vcount[v] - count][w] == |LiveIn(t', w)|)
  {
    hide Entries, Covered, ReadingOk, Shaped, Placed, Owed, LiveIn, Reqs, MovedTo;
    var v := Blk(g.bank, g.victims[i]);
    var r, live := Reqs(SlotsOf(g)), LiveIn(s.table, v);
    OwedStep(s, g, i);
    OwedAll(s, g);
    assert g.victims[i] in g.victims;
    WriteLive(s, t', g, b, p, v);
    Split(live, r);
    SubsetSize(r * live, live);
    if i == |g.victims| - 1 { OwedNone(s, g); }
    if i != |g.victims| - 1 || !g.reading {
      assert r * live == live;
    }
    if count <= vcount[v] {
      forall j | 0 <= j < |g.victims|
        ensures |LiveIn(t', Blk(g.bank, g.victims[j]))| ==
          if j == i then vcount[v] - count else vcount[Blk(g.bank, g.victims[j])]
      {
        if j > i { NothingOwed(s, t', g, b, p, i, j); }
      }
    }
  }

  lemma Split(a: set<int>, r: set<int>)
    ensures |a - r| == |a| - |r * a|
  {
  }

  lemma OwedNone(s: Flash, g: Inc)
    requires |g.lpns| == |g.data|
    ensures Owed(s, g, |g.victims|) == {}
  {
  }

  lemma NothingOwed(s: Flash, t': seq<Place>, g: Inc, b: Blk, p: int, i: int, j: int)
    requires IncInv(s, g) && WriteTarget(s, g, b, p) && MovedTo(s.table, t', SlotsOf(g), b, p)
    requires 0 <= i < j < |g.victims| && |Owed(s, g, i + 1)| == 0
    ensures LiveIn(t', Blk(g.bank, g.victims[j])) == LiveIn(s.table, Blk(g.bank, g.victims[j]))
  {
    hide IncInv, MovedTo, Reqs;
    var x := Blk(g.bank, g.victims[j]);
    assert g.victims[i + 1..][j - i - 1] == g.victims[j];
    WriteLive(s, t', g, b, p, x);
    forall l | l in LiveIn(s.table, x)
      ensures l !in Reqs(SlotsOf(g))
    {
      assert l in LiveInAll(s.table, g.bank, g.victims[i + 1..]) && l !in Owed(s, g, i + 1);
    }
  }

  // ------------------------------------------------ the victim list

  // A block of the data list that may be chosen.
  ghost predicate Choosable(s: Flash, b: Blk)
    requires Shaped(s) && Placed(s)
  {
    Tidy(s, b) && Exact(s, b) && Legible(s, b, PAGES_PER_BLK)
  }

  ghost function Chosen(g: Inc, b: int, reading: bool): Inc {
    g.(victims := g.victims + [b], reading := reading, at := 0)
  }

  lemma ChooseOk(s: Flash, g: Inc, b: int, reading: bool)
    requires IncInv(s, g) && !g.reading && b !in g.victims && Choosable(s, Blk(g.bank, b))
    requires !reading ==> LiveIn(s.table, Blk(g.bank, b)) == {}
    ensures IncInv(s, Chosen(g, b, reading)) && FromCurrent(Chosen(g, b, reading)) == {}
  {
  }

  // An erased victim leaves the list; if it was being read, nothing is read now.
  ghost function Gone(g: Inc, v: int): Inc
    requires g.victims != []
  {
    g.(victims := Without(g.victims, v), reading := g.reading && v != g.victims[|g.victims| - 1])
  }

  lemma {:induction false} WithoutLast(s: seq<int>, x: int)
    requires NoDup(s) && x in s && s[|s| - 1] != x
    ensures Without(s, x) != [] && Without(s, x)[|Without(s, x)| - 1] == s[|s| - 1]
  {
    var t := s[1..];
    assert s == [s[0]] + t;
    if s[0] == x {
    } else {
      assert x in t && t[|t| - 1] == s[|s| - 1];
      WithoutLast(t, x);
    }
  }

  lemma GoneOk(s: Flash, g: Inc, v: int)
    requires IncInv(s, g) && v in g.victims && LiveIn(s.table, Blk(g.bank, v)) == {}
    ensures IncInv(Returned(s, Blk(g.bank, v)), Gone(g, v))
    ensures Shaped(s) && Placed(s) && Shaped(Returned(s, Blk(g.bank, v))) && Placed(Returned(s, Blk(g.bank, v)))
    ensures SameMeaning(s, Returned(s, Blk(g.bank, v)))
    ensures Gone(g, v).reading ==> Cur(Gone(g, v)) == Cur(g) && FromCurrent(Gone(g, v)) == FromCurrent(g)
  {
    var s', g' := Returned(s, Blk(g.bank, v)), Gone(g, v);
    WipedOk(s, Blk(g.bank, v), s');
    WithoutFacts(g.victims, v);
    if v != g.victims[|g.victims| - 1] { WithoutLast(g.victims, v); }
    GoneEntries(s, g, v);
    GoneReading(s, g, v);
  }

  lemma GoneEntries(s: Flash, g: Inc, v: int)
    requires IncInv(s, g) && v in g.victims && LiveIn(s.table, Blk(g.bank, v)) == {}
    requires Shaped(Returned(s, Blk(g.bank, v))) && Placed(Returned(s, Blk(g.bank, v)))
    requires forall y :: y in Without(g.victims, v) <==> y in g.victims && y != v
    requires NoDup(Without(g.victims, v))
    requires Gone(g, v).reading ==> Gone(g, v).victims != [] && Cur(Gone(g, v)) == Cur(g)
    requires SameMeaning(s, Returned(s, Blk(g.bank, v)))
    ensures var s', g' := Returned(s, Blk(g.bank, v)), Gone(g, v); Entries(s', g') && Covered(s', g')
                                                                   && VictimsOk(s', g')
  {
  }

  lemma GoneReading(s: Flash, g: Inc, v: int)
    requires IncInv(s, g) && v in g.victims
    requires Shaped(Returned(s, Blk(g.bank, v)))
    requires Gone(g, v).reading ==> Gone(g, v).victims != [] && Cur(Gone(g, v)) == Cur(g) && v != Cur(g).no
    ensures ReadingOk(Returned(s, Blk(g.bank, v)), Gone(g, v))
  {
  }

  // ------------------------------------------------ the block written to

  lemma TargetCounts(s: Flash, s': Flash, g: Inc, b: Blk, p: int)
    requires IncInv(s, g) && WriteTarget(s, g, b, p) && BufferWritten(s, s', g, b, p) && Shaped(s') && Placed(s')
    requires Carried(s, b) && Counted(s, b)
    ensures Carried(s', b) && s'.vcount[b] == |LiveIn(s'.table, b)| <= BLK_LPAGES
  {
    hide Covered, VictimsOk, ReadingOk;
    SlotsFacts(s, g);
    WriteLive(s, s'.table, g, b, p, b);
    forall l | l in LiveIn(s'.table, b)
      ensures Effective(CellAt(s', s'.table[l])) == l
    {
      WrittenPlace(s, s', g, b, p, l);
      if l !in g.lpns { assert l in LiveIn(s.table, b); }
    }
    LiveBound(s', b);
    var a, r := LiveIn(s.table, b), Reqs(SlotsOf(g));
    assert a !! r;
  }

  // A count outside the victims may be set.
  lemma OtherCount(s: Flash, g: Inc, c: Blk, v: int)
    requires IncInv(s, g) && !IsVictim(g, c)
    ensures IncInv(s.(vcount := s.vcount[c := v]), g) && SameMeaning(s, s.(vcount := s.vcount[c := v]))
  {
  }

  ghost predicate OthersStay(t0: seq<Place>, t: seq<Place>, g: Inc) {
    && |t| == |t0|
    && forall l :: 0 <= l < |t| ==> if l in g.lpns then t[l].Nand? && !IsVictim(g, t[l].blk) else t[l] == t0[l]
  }

  lemma WriteOthers(s: Flash, s': Flash, g: Inc, b: Blk, p: int)
    requires IncInv(s, g) && WriteTarget(s, g, b, p) && BufferWritten(s, s', g, b, p)
    ensures OthersStay(s.table, s'.table, g)
  {
    hide Covered, VictimsOk, ReadingOk, BufferWritten;
    forall l | 0 <= l < |s.table|
      ensures |s'.table| == |s.table|
      ensures if l in g.lpns then s'.table[l].Nand? && !IsVictim(g, s'.table[l].blk) else s'.table[l] == s.table[l]
    {
      WrittenPlace(s, s', g, b, p, l);
    }
    assert |s'.table| == |s.table| by { WriteCovered(s, s', g, b, p); }
  }

  // Reading ends when every live page of the victim is in the buffer.
  lemma StopOk(s: Flash, g: Inc)
    requires IncInv(s, g) && g.reading && |FromCurrent(g)| == |LiveIn(s.table, Cur(g))|
    ensures IncInv(s, g.(reading := false))
  {
    AllRead(s, g);
    forall l | 0 <= l < |s.table| && s.table[l].Nand? && IsVictim(g, s.table[l].blk)
      ensures l in g.lpns
    {
      assert l in LiveIn(s.table, s.table[l].blk);
    }
  }

  // Erasing a block that is neither a victim nor holds a live page.
  lemma EraseOther(s: Flash, g: Inc, c: Blk)
    requires IncInv(s, g) && !IsVictim(g, c) && LiveIn(s.table, c) == {}
    ensures IncInv(s.(nand := Wiped(s.nand, c)), g)
    ensures Shaped(s) && Placed(s) && Shaped(s.(nand := Wiped(s.nand, c))) && Placed(s.(nand := Wiped(s.nand, c)))
    ensures SameMeaning(s, s.(nand := Wiped(s.nand, c)))
  {
    var s' := s.(nand := Wiped(s.nand, c));
    WipedOk(s, c, s');
    EraseOtherEntries(s, g, c);
    if g.reading {
      assert IsVictim(g, Cur(g));
      forall q: Place | InBlock(q) && q.blk == Cur(g) && (q.blk, q.page) in s.nand
        ensures (q.blk, q.page) in s'.nand && CellAt(s', q) == CellAt(s, q)
      {
      }
    }
  }

  lemma EraseOtherEntries(s: Flash, g: Inc, c: Blk)
    requires IncInv(s, g) && !IsVictim(g, c)
    requires Shaped(s.(nand := Wiped(s.nand, c))) && Placed(s.(nand := Wiped(s.nand, c)))
    requires SameMeaning(s, s.(nand := Wiped(s.nand, c)))
    requires forall x :: Carried(s, x) ==> Carried(s.(nand := Wiped(s.nand, c)), x)
    ensures var s' := s.(nand := Wiped(s.nand, c)); Entries(s', g) && Covered(s', g) && VictimsOk(s', g)
  {
  }

  // ------------------------------------------------ what is read next

  // A bit is set of the page at position `from`.
  ghost predicate HasBits(bits: set<Place>, b: Blk, from: int) {
    exists p :: p in bits && InBlock(p) && p.blk == b && from <= Pos(p) < from + 2
  }

  // The first page from there on with a bit set, in the order of the scan.
  ghost function NextRead(bits: set<Place>, b: Blk, from: int): int
    decreases BLK_LPAGES - from
  {
    if from >= BLK_LPAGES then BLK_LPAGES
    else if HasBits(bits, b, from) then from
    else NextRead(bits, b, from + 2)
  }

  ghost function LiveAt(t: seq<Place>, p: Place): nat {
    if p in t then 1 else 0
  }

  // The live halves of the page at position `from`; none past the end.
  ghost function LiveHalves(t: seq<Place>, b: Blk, from: int): (n: nat)
    ensures n <= 2
  {
    if 0 <= from < BLK_LPAGES
    then LiveAt(t, Nand(b, from / 2 % PAGES_PER_BLK, from / 2 / PAGES_PER_BLK * 2))
         + LiveAt(t, Nand(b, from / 2 % PAGES_PER_BLK, from / 2 / PAGES_PER_BLK * 2 + 1))
    else 0
  }

  ghost function NextHalves(s: Flash, b: Blk, from: int): nat {
    LiveHalves(s.table, b, NextRead(s.bits, b, from))
  }

  // The live halves a reading step enters: none if as many pages have been
  // entered as the block counts.
  ghost function Coming(s: Flash, b: Blk, from: int, got: int): nat {
    if b in s.vcount && got < s.vcount[b] then NextHalves(s, b, from) else 0
  }

  // Where reading goes on behind the next page.
  ghost function Onward(s: Flash, b: Blk, from: int): int {
    if NextRead(s.bits, b, from) < BLK_LPAGES then NextRead(s.bits, b, from) + 2 else BLK_LPAGES
  }

  // Some block of the list counts nothing.
  predicate SomeUsed(vcount: map<Blk, int>, bank: int, list: seq<int>) {
    exists v :: v in list && Blk(bank, v) in vcount && vcount[Blk(bank, v)] == 0
  }

  // The first block of the list that counts nothing.
  ghost predicate FirstUsed(vcount: map<Blk, int>, bank: int, list: seq<int>, v: int) {
    exists i :: 0 <= i < |list| && list[i] == v && Blk(bank, v) in vcount && vcount[Blk(bank, v)] == 0
                && forall j :: 0 <= j < i ==> Blk(bank, list[j]) in vcount ==> vcount[Blk(bank, list[j])] != 0
  }

  lemma PageHalves(t: seq<Place>, b: Blk, plane: int, page: int, valid0: bool, valid1: bool)
    requires 0 <= page < PAGES_PER_BLK && 0 <= plane < PLANES
    requires valid0 <==> exists l :: 0 <= l < |t| && t[l] == Nand(b, page, plane * 2)
    requires valid1 <==> exists l :: 0 <= l < |t| && t[l] == Nand(b, page, plane * 2 + 1)
    ensures LiveHalves(t, b, (plane * PAGES_PER_BLK + page) * 2)
      == (if valid0 then 1 else 0) + (if valid1 then 1 else 0)
  {
    var k := plane * PAGES_PER_BLK + page;
    assert k / PAGES_PER_BLK == plane && k % PAGES_PER_BLK == page;
  }
}
