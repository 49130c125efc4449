/** The record that goes with each page: the address it is written under, the
    one it is to be remapped to, and its data, in a buffer slot or, once
    written, in a spare area.  A temporary page keeps its record until it is
    overwritten or remapped (ATLWrapper.cpp:1032-1199, 1337-1681). */
module TempRecords {
  import opened Layout
  import opened FlashState
  import opened BufferState
  import opened BufferFlush
  import opened BufferRemap
  import opened BankLaw
  import opened BlockPartition
  import opened BlockLists
  import opened HostLaw

  ghost function Record(h: Host, l: int): Slot
    requires Readable(h) && 0 <= l < |h.flash.table| && h.flash.table[l] != Unmapped
  {
    match h.flash.table[l]
    case Nand(_, _, _) => var c := CellAt(h.flash, h.flash.table[l]); Slot(c.req, c.remap, c.data)
    case Buffered(_, _, _) => SlotAt(h, h.flash.table[l])
  }

  ghost predicate SameRecord(h: Host, h': Host, l: int)
    requires Readable(h) && Readable(h') && 0 <= l < |h.flash.table| == |h'.flash.table|
  {
    && (h'.flash.table[l] == Unmapped <==> h.flash.table[l] == Unmapped)
    && (h.flash.table[l] != Unmapped ==> Record(h', l) == Record(h, l))
  }

  // Every temporary page outside `but` is mapped as before, with its record.
  ghost predicate TempsKept(h: Host, h': Host, but: set<int>) {
    && Readable(h) && Readable(h') && |h'.flash.table| == |h.flash.table| && h'.rwStart == h.rwStart
    && forall l :: Temp(h, l) && 0 <= l && l !in but ==> SameRecord(h, h', l)
  }

  // What write_page makes of the record of a temporary page: one still in a
  // buffer keeps the address it came with, padding has none, any other page is
  // to be remapped to `olpn`.
  ghost predicate WrittenDown(h: Host, h': Host, l: int, olpn: int, d: Data)
    requires Readable(h) && Readable(h') && 0 <= l < |h.flash.table| == |h'.flash.table|
  {
    if h.flash.table[l].Buffered? then
      h'.flash.table[l] != Unmapped && Record(h', l) == Record(h, l).(data := d)
    else if olpn == INVALID_LPN then
      h'.flash.table[l] == Unmapped
    else
      h'.flash.table[l] != Unmapped && Record(h', l) == Slot(l, olpn, d)
  }

  lemma KeptAll(h: Host, but: set<int>)
    requires Readable(h)
    ensures TempsKept(h, h, but)
  {
  }

  lemma KeptThen(h: Host, g: Host, h': Host, a: set<int>, b: set<int>, c: set<int>)
    requires TempsKept(h, g, a) && TempsKept(g, h', b) && a <= c && b <= c
    ensures TempsKept(h, h', c)
  {
    hide Readable, Record;
    forall l | Temp(h, l) && 0 <= l && l !in c
      ensures SameRecord(h, h', l)
    {
      assert Temp(g, l) && SameRecord(h, g, l) && SameRecord(g, h', l);
    }
  }

  lemma RecordKept(h: Host, h': Host, but: set<int>, l: int)
    requires TempsKept(h, h', but) && Temp(h, l) && 0 <= l && l !in but && h.flash.table[l] != Unmapped
    ensures h'.flash.table[l] != Unmapped && Record(h', l) == Record(h, l)
  {
    assert SameRecord(h, h', l);
  }

  // What the remap of a page has to name is its record.
  lemma AgreedRecord(h: Host, t: int, o: int)
    requires Inv(h) && 0 <= t < |h.flash.table|
    ensures Readable(h)
    ensures Agreed(h, t, o) <==> (h.flash.table[t] == Unmapped || Recorded(Record(h, t)) == o)
  {
  }

  lemma AgreedAfterWrite(h: Host, h': Host, l: int, olpn: int, d: Data)
    requires Inv(h) && Inv(h') && Readable(h) && Readable(h') && 0 <= l < |h.flash.table| == |h'.flash.table|
    requires WrittenDown(h, h', l, olpn, d)
    ensures h.flash.table[l].Buffered? ==> (Agreed(h', l, olpn) <==> Agreed(h, l, olpn))
    ensures !h.flash.table[l].Buffered? && olpn != INVALID_LPN ==> Agreed(h', l, olpn)
  {
    hide Inv, Readable, Agreed, Record;
    AgreedRecord(h, l, olpn);
    AgreedRecord(h', l, olpn);
  }

  // An entry without a pair of this core changes nothing.
  lemma {:induction false} OtherCore(r: seq<Reading>, pairs: seq<(int, int)>, core: int)
    requires forall i :: 0 <= i < |pairs| ==> pairs[i].0 % CORES != core || pairs[i].1 == VC_MAX
    ensures PairsIn(pairs, core, |r|) && Composed(r, pairs, core) == r
  {
    if pairs != [] {
      OtherCore(r, pairs[..|pairs| - 1], core);
    }
  }

  // The temporary addresses of an entry.
  ghost function Sources(pairs: seq<(int, int)>, core: int): set<int> {
    set i | 0 <= i < |pairs| && Mine(pairs[i], core) :: pairs[i].0 / CORES
  }

  // A remap to any other address than the one recorded leaves a home page whose
  // spare area names another page.
  lemma PairNeedsRecord(h: Host, t: int, o: int)
    requires Inv(h) && Temp(h, t) && 0 <= t && 0 <= o < h.rwStart && o < |h.flash.table| && h.flash.table[t] != Unmapped
    requires Readable(h) && Record(h, t).remap != INVALID_LPN && !Agreed(h, t, o)
    ensures Inv(RemapPair(h, t, o)) && !Spared(RemapPair(h, t, o))
  {
    hide Tallied, Remaining, InBuffCounted, Injective, Addressed, RemapPair;
    var h', p := RemapPair(h, t, o), h.flash.table[t];
    RemapPairOk(h, t, o);
    SameStored(h, t, o);
    StartKept(h, t, o);
    assert h'.flash.table[o] == p;
    if p.Nand? {
      assert CellAt(h'.flash, h'.flash.table[o]) == CellAt(h.flash, p);
    } else {
      assert Holds(h', (p.bank, p.kind), p.slot) && SlotAt(h', p).req == o;
    }
  }

  // ------------------------------------------------ what the host remembers

  // The host's book: where each of its temporary pages is to go.
  ghost predicate Booked(h: Host, book: map<int, int>)
    requires Inv(h)
  {
    forall t :: Temp(h, t) && 0 <= t && h.flash.table[t] != Unmapped ==> t in book && Agreed(h, t, book[t])
  }

  lemma KeptAgreed(h: Host, h': Host, but: set<int>, t: int, o: int)
    requires Inv(h) && Inv(h') && TempsKept(h, h', but) && Temp(h, t) && 0 <= t && t !in but
    ensures Agreed(h', t, o) <==> Agreed(h, t, o)
  {
    hide Inv, Readable, Agreed, Record;
    AgreedRecord(h, t, o);
    AgreedRecord(h', t, o);
    assert SameRecord(h, h', t);
  }

  // The book is right after a write if the host does not give a page that may
  // still be in a buffer another home.
  lemma BookedWrite(h: Host, h': Host, book: map<int, int>, l: int, olpn: int, d: Data)
    requires Inv(h) && Inv(h') && TempsKept(h, h', {l}) && Temp(h, l) && 0 <= l && WrittenDown(h, h', l, olpn, d)
    requires Booked(h, book) && (h.flash.table[l].Buffered? ==> olpn == book[l])
    ensures Booked(h', book[l := olpn])
  {
    hide Inv, Readable, Agreed, Record;
    AgreedAfterWrite(h, h', l, olpn, d);
    forall t | Temp(h', t) && 0 <= t && h'.flash.table[t] != Unmapped && t != l
      ensures t in book && Agreed(h', t, book[t])
    {
      assert SameRecord(h, h', t);
      KeptAgreed(h, h', {l}, t, book[t]);
    }
  }

  // Remaps by the book are the ones the law asks for, and leave it right.
  lemma BookedRemap(h: Host, h': Host, book: map<int, int>, pairs: seq<(int, int)>, core: int)
    requires Inv(h) && Inv(h') && TempsKept(h, h', Sources(pairs, core)) && Booked(h, book)
    requires forall t :: t in Sources(pairs, core) && 0 <= t < |h'.flash.table| ==> h'.flash.table[t] == Unmapped
    ensures Booked(h', book)
  {
    hide Inv, Readable, Agreed, Record, Sources;
    forall t | Temp(h', t) && 0 <= t && h'.flash.table[t] != Unmapped
      ensures t in book && Agreed(h', t, book[t])
    {
      assert SameRecord(h, h', t);
      KeptAgreed(h, h', Sources(pairs, core), t, book[t]);
    }
  }

  lemma ReleaseTemps(h: Host, l: int)
    requires Inv(h) && 0 <= l < |h.flash.table| && h.flash.table[l].Nand?
    requires h.flash.table[l].blk in h.flash.vcount && (Temp(h, l) ==> h.flash.table[l].blk in h.remained)
    ensures TempsKept(h, Released(h, l), {l})
  {
    ReleaseOk(h, l);
  }

  lemma PlaceTemps(h: Host, k: (int, WriteType), i: int, slot: Slot, frame: int)
    requires Inv(h) && k in h.buffers && 0 <= i < SLOTS && i / 2 <= h.buffers[k].index && !h.buffers[k].filled[i]
    requires 0 <= slot.req < |h.flash.table| && h.flash.table[slot.req] == Unmapped
    requires Inv(Placing(h, k, i, slot, frame))
    ensures var h' := Placing(h, k, i, slot, frame);
      TempsKept(h, h', {slot.req}) && h'.flash.table[slot.req] != Unmapped && Record(h', slot.req) == slot
  {
    hide Tallied, Remaining, InBuffCounted, Injective, Addressed;
    var h' := Placing(h, k, i, slot, frame);
    forall l | Temp(h, l) && 0 <= l && l != slot.req
      ensures SameRecord(h, h', l)
    {
    }
  }

  lemma OverwriteTemps(h: Host, l: int, d: Data)
    requires Inv(h) && 0 <= l < |h.flash.table| && h.flash.table[l].Buffered? && InBuffer(h, h.flash.table[l])
    requires Inv(Overwritten(h, l, d))
    ensures var h' := Overwritten(h, l, d);
      TempsKept(h, h', {l}) && h'.flash.table[l] != Unmapped && Record(h', l) == Record(h, l).(data := d)
  {
    hide Tallied, Remaining, InBuffCounted, Injective, Addressed;
    var h' := Overwritten(h, l, d);
    forall m | Temp(h, m) && 0 <= m && m != l
      ensures SameRecord(h, h', m)
    {
      if h.flash.table[m].Buffered? {
        assert SlotAt(h, h.flash.table[m]).req == m && SlotAt(h, h.flash.table[l]).req == l;
      }
    }
  }

  // Collection for an allocation does not touch blocks with temporary pages.
  lemma AllocKeepsTemps(h: Host, s: Flash, ls: Lists, n: int)
    requires Inv(h) && Banked(ls) && TempsListed(h, ls) && n in ls.banks
    requires MeaningKept(h.flash, s, Reachable(n, ls.banks[n])) && Readable(h.(flash := s))
    ensures TempsKept(h, h.(flash := s), {})
  {
    hide SameMeaning, Tallied, Remaining, InBuffCounted, Injective, Addressed;
    AllocTemps(h, s, ls, n);
    ApartFacts(ls.banks[n]);
    forall l | Temp(h, l) && 0 <= l
      ensures SameRecord(h, h.(flash := s), l)
    {
      if h.flash.table[l].Nand? { assert h.flash.table[l].blk !in Reachable(n, ls.banks[n]); }
    }
  }

  // A written page's slot has become its spare area.
  lemma FlushTemps(h: Host, h': Host, k: (int, WriteType), b: Blk, p: int)
    requires Inv(h) && Target(h, k, b, p) && Flushed(h, h', k, b, p) && Inv(h')
    ensures TempsKept(h, h', {})
  {
    hide Tallied, Remaining, InBuffCounted, Injective, Addressed;
    SlotsOwned(h, k);
    forall l | Temp(h, l) && 0 <= l
      ensures SameRecord(h, h', l)
    {
      PlaceOfReq(h, h', k, b, p, l);
    }
  }

  lemma StartKept(h: Host, t: int, o: int)
    requires Inv(h) && Temp(h, t) && 0 <= t && 0 <= o < h.rwStart && o < |h.flash.table| && h.flash.table[t] != Unmapped
    ensures RemapPair(h, t, o).rwStart == h.rwStart
  {
    hide Inv, Owned;
    GivenUpOk(h, o);
    HandKnown(GivenUp(h, o), t);
  }

  // A remap takes the record of its own temporary page only.
  lemma PairKeepsTemps(h: Host, t: int, o: int)
    requires Inv(h) && Temp(h, t) && 0 <= t && 0 <= o < h.rwStart && o < |h.flash.table| && h.flash.table[t] != Unmapped
    ensures TempsKept(h, RemapPair(h, t, o), {t}) && RemapPair(h, t, o).flash.table[t] == Unmapped
  {
    hide Tallied, Remaining, InBuffCounted, Injective, Addressed, RemapPair, Shaped, Placed;
    RemapPairOk(h, t, o);
    SameStored(h, t, o);
    StartKept(h, t, o);
    var h' := RemapPair(h, t, o);
    forall l | Temp(h, l) && 0 <= l && l != t
      ensures SameRecord(h, h', l)
    {
      assert h'.flash.table[l] == h.flash.table[l] && Read(h', l) == Read(h, l);
      if h.flash.table[l].Buffered? {
        assert SlotAt(h, h.flash.table[l]).req == l && SlotAt(h', h.flash.table[l]).req == l;
      }
    }
  }

  // ------------------------------------------------ what the pairs agree on

  // The pairs from `n` on name the addresses that came with the pages.
  ghost predicate AgreedFrom(h: Host, pairs: seq<(int, int)>, core: int, n: int)
    requires Inv(h)
  {
    forall i :: 0 <= n <= i < |pairs| && Mine(pairs[i], core) && 0 <= pairs[i].0 / CORES < |h.flash.table| ==>
      Agreed(h, pairs[i].0 / CORES, pairs[i].1 / CORES)
  }

  lemma AgreedNext(h: Host, pairs: seq<(int, int)>, core: int, n: int)
    requires Inv(h) && EntryOk(h, pairs, core) && MappedFrom(h, pairs, core, n) && AgreedFrom(h, pairs, core, n)
    requires 0 <= n < |pairs| && Mine(pairs[n], core)
    ensures var t, o := pairs[n].0 / CORES, pairs[n].1 / CORES;
      && 0 <= t && Temp(h, t) && 0 <= o < h.rwStart && o < |h.flash.table| && h.flash.table[t] != Unmapped
      && Agreed(h, t, o) && Inv(RemapPair(h, t, o)) && AgreedFrom(RemapPair(h, t, o), pairs, core, n + 1)
  {
    hide Inv, Agreed;
    var t, o := pairs[n].0 / CORES, pairs[n].1 / CORES;
    RemapPairOk(h, t, o);
    forall i | n < i < |pairs| && Mine(pairs[i], core)
      ensures Agreed(RemapPair(h, t, o), pairs[i].0 / CORES, pairs[i].1 / CORES)
    {
      AgreedKept(h, t, o, pairs[i].0 / CORES, pairs[i].1 / CORES);
    }
  }

  lemma AgreedSkip(h: Host, pairs: seq<(int, int)>, core: int, n: int)
    requires Inv(h) && 0 <= n < |pairs| && !Mine(pairs[n], core)
    ensures AgreedFrom(h, pairs, core, n) ==> AgreedFrom(h, pairs, core, n + 1)
  {
  }

  // Pairs by the book name the addresses that came with their pages.
  lemma BookedEntry(h: Host, book: map<int, int>, pairs: seq<(int, int)>, core: int)
    requires Inv(h) && Booked(h, book) && EntryOk(h, pairs, core) && MappedFrom(h, pairs, core, 0)
    requires forall i :: 0 <= i < |pairs| && Mine(pairs[i], core) && pairs[i].0 / CORES in book ==>
      pairs[i].1 / CORES == book[pairs[i].0 / CORES]
    ensures AgreedFrom(h, pairs, core, 0)
  {
    hide Inv, Agreed;
  }
}
