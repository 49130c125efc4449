/** The write-back cache of map pages with its LRU chain
    (ATLWrapper.cpp:1846-1977, 3168-3184). */
module MapCache {
  import opened MapState
  import opened BankedStore

  const NIL: int := -1
  const NO_PAGE: int := 0xffff       // (RSP_UINT16) VC_MAX

  // The profile flags of a lookup; those from IntraGC on do not touch the LRU order.
  datatype Flag = SW | RW | JN | JN_remap | RW_remap | IntraGC | InterGC

  predicate ForGc(f: Flag) {
    f.IntraGC? || f.InterGC?
  }

  // ------------------------------------------------ the chain

  // `chain` lists the slots from the most to the least recently used one.
  ghost predicate Linked(next: seq<int>, head: int, chain: seq<int>) {
    && head == (if chain == [] then NIL else chain[0])
    && (forall i :: 0 <= i < |chain| ==> 0 <= chain[i] < |next|)
    && (forall i, j :: 0 <= i < j < |chain| ==> chain[i] != chain[j])
    && (forall i, j :: 0 <= i < |chain| && j == i + 1 && j < |chain| ==> next[chain[i]] == chain[j])
    && (chain != [] ==> next[chain[|chain| - 1]] == NIL)
  }

  lemma LinkFront(next: seq<int>, head: int, chain: seq<int>, slot: int)
    requires Linked(next, head, chain) && 0 <= slot < |next| && slot !in chain
    ensures Linked(next[slot := head], slot, [slot] + chain)
  {
  }

  ghost function ToFront(chain: seq<int>, i: nat): seq<int>
    requires i < |chain|
  {
    [chain[i]] + chain[..i] + chain[i + 1..]
  }

  lemma ToFrontAt(chain: seq<int>, i: nat)
    requires i < |chain|
    ensures |ToFront(chain, i)| == |chain|
    ensures forall j :: 0 <= j < |chain| ==> ToFront(chain, i)[j] == chain[Source(i, j)]
    ensures forall x :: x in ToFront(chain, i) <==> x in chain
  {
  }

  // Where position `j` of the reordered chain comes from.
  ghost function Source(i: nat, j: nat): nat {
    if j == 0 then i else if j <= i then j - 1 else j
  }

  // Unlinking behind its predecessor and linking at the head.
  lemma LinkToFront(next: seq<int>, head: int, chain: seq<int>, i: nat)
    requires Linked(next, head, chain) && 0 < i < |chain|
    ensures Linked(next[chain[i - 1] := next[chain[i]]][chain[i] := head], chain[i], ToFront(chain, i))
    ensures forall x :: x in ToFront(chain, i) <==> x in chain
  {
  }

  // With a single slot the eviction path links the slot to itself
  // (ATLWrapper.cpp:1947-1953 with prev == NULL), and then there is no chain.
  lemma SingleSlotLoops(next: seq<int>, head: int, chain: seq<int>, next': seq<int>)
    requires Linked(next, head, chain) && |chain| == 1 && next' == next[head := head]
    ensures forall c :: !Linked(next', head, c)
  {
    forall c: seq<int>
      ensures !Linked(next', head, c)
    {
      if Linked(next', head, c) {
        assert chain[0] == head && next'[head] == head && c != [];
        Follow(next', head, c, |c| - 1);
      }
    }
  }

  lemma {:induction false} Follow(next: seq<int>, head: int, chain: seq<int>, i: nat)
    requires Linked(next, head, chain) && 0 <= head < |next| && next[head] == head && i < |chain|
    ensures chain[i] == head
  {
    if i == 0 {
    } else {
      Follow(next, head, chain, i - 1);
    }
  }

  // ------------------------------------------------ the contents

  datatype Slots = Slots(mapPage: seq<int>, dirty: seq<bool>, buf: seq<Page>, used: int)

  // The cache in front of `stored` shows the table `view`; clean slots equal
  // their backing page.
  ghost predicate Coherent(c: Slots, stored: seq<Page>, view: seq<Page>, words: nat) {
    && |c.mapPage| == |c.dirty| == |c.buf| && 0 <= c.used <= |c.mapPage|
    && |view| == |stored| <= NO_PAGE
    && (forall x :: 0 <= x < c.used ==>
          && 0 <= c.mapPage[x] < |view| && view[c.mapPage[x]] == c.buf[x]
          && |c.buf[x]| == words
          && (!c.dirty[x] ==> stored[c.mapPage[x]] == c.buf[x]))
    && (forall x, y :: 0 <= x < y < c.used ==> c.mapPage[x] != c.mapPage[y])
    && (forall m :: 0 <= m < |view| && Uncached(c, m) ==> view[m] == stored[m])
    && (forall x :: c.used <= x < |c.dirty| ==> !c.dirty[x])
  }

  ghost predicate Uncached(c: Slots, m: int)
    requires 0 <= c.used <= |c.mapPage|
  {
    forall x :: 0 <= x < c.used ==> c.mapPage[x] != m
  }

  lemma EmptyCache(c: Slots, stored: seq<Page>, words: nat)
    requires |c.mapPage| == |c.dirty| == |c.buf| && c.used == 0 && |stored| <= NO_PAGE
    requires forall x :: 0 <= x < |c.dirty| ==> !c.dirty[x]
    ensures Coherent(c, stored, stored, words)
  {
  }

  // Writing back a slot.
  lemma Synced(c: Slots, stored: seq<Page>, view: seq<Page>, words: nat, x: int)
    requires Coherent(c, stored, view, words) && 0 <= x < c.used
    ensures Coherent(c.(dirty := c.dirty[x := false]), stored[c.mapPage[x] := c.buf[x]], view, words)
  {
  }

  // Loading page `m` into slot `x`: a new one, or a clean one that is reused.
  lemma Loaded(c: Slots, stored: seq<Page>, view: seq<Page>, words: nat, x: int, m: int)
    requires Coherent(c, stored, view, words) && 0 <= m < |view| && Uncached(c, m) && |stored[m]| == words
    requires (0 <= x < c.used && !c.dirty[x]) || (x == c.used < |c.mapPage|)
    ensures Coherent(c.(mapPage := c.mapPage[x := m], buf := c.buf[x := stored[m]],
                        used := if x == c.used then x + 1 else c.used), stored, view, words)
  {
    var c' := c.(mapPage := c.mapPage[x := m], buf := c.buf[x := stored[m]],
                 used := if x == c.used then x + 1 else c.used);
    forall k | 0 <= k < |view| && Uncached(c', k)
      ensures view[k] == stored[k]
    {
      if x < c.used && c.mapPage[x] == k {
        assert stored[k] == c.buf[x] == view[k];
      } else {
        forall y | 0 <= y < c.used
          ensures c.mapPage[y] != k
        {
          if y != x { assert c'.mapPage[y] == c.mapPage[y]; }
        }
        assert Uncached(c, k);
      }
    }
  }

  lemma Updated(c: Slots, stored: seq<Page>, view: seq<Page>, words: nat, x: int, page: Page)
    requires Coherent(c, stored, view, words) && 0 <= x < c.used && |page| == words
    ensures Coherent(c.(buf := c.buf[x := page], dirty := c.dirty[x := true]), stored,
      view[c.mapPage[x] := page], words)
  {
  }

  // With no dirty slot, flash holds the whole table.
  lemma AllClean(c: Slots, stored: seq<Page>, view: seq<Page>, words: nat)
    requires Coherent(c, stored, view, words) && forall x :: 0 <= x < |c.dirty| ==> !c.dirty[x]
    ensures stored == view
  {
  }

  // ------------------------------------------------ the replacement policy

  // What a lookup may change: the chain, and which page is where.
  datatype Lru = Lru(chain: seq<int>, mapPage: seq<int>, dirty: seq<bool>, used: int, stored: seq<Page>)

  ghost predicate Fit(s: Lru) {
    && 0 <= s.used <= |s.mapPage| == |s.dirty|
    && |s.chain| == s.used && s.mapPage != []
    && (forall x :: 0 <= x < s.used ==> x in s.chain)
  }

  ghost predicate Cached(s: Lru, page: int)
    requires Fit(s)
  {
    page in s.mapPage[..s.used]
  }

  // The slot now comes first, and the others keep their order.
  ghost predicate Promoted(chain: seq<int>, chain': seq<int>, slot: int) {
    if slot !in chain then chain' == [slot] + chain
    else exists i :: 0 <= i < |chain| && chain[i] == slot && chain' == [slot] + chain[..i] + chain[i + 1..]
  }

  lemma FirstStays(chain: seq<int>)
    ensures chain != [] ==> Promoted(chain, chain, chain[0])
  {
    if chain != [] {
      assert chain == [chain[0]] + chain[..0] + chain[0 + 1..];
    }
  }

  // Writes and remaps use a page, collection does not.
  ghost predicate Order(chain: seq<int>, chain': seq<int>, slot: int, flag: Flag) {
    match flag
    case SW | RW | JN | JN_remap | RW_remap => Promoted(chain, chain', slot)
    case IntraGC | InterGC => chain' == if slot in chain then chain else [slot] + chain
  }

  // A cached page stays where it is; any other goes to the next empty slot or,
  // if there is none, replaces the least recently used page.
  ghost predicate Seated(s: Lru, s': Lru, page: int, slot: int)
    requires Fit(s)
  {
    if Cached(s, page) then
      0 <= slot < s.used && s.mapPage[slot] == page && s' == s.(chain := s'.chain)
    else if s.used < |s.mapPage| then
      slot == s.used && s' == Lru(s'.chain, s.mapPage[slot := page], s.dirty, s.used + 1, s.stored)
    else
      && slot == s.chain[|s.chain| - 1] && 0 <= slot < |s.mapPage|
      && s' == Lru(s'.chain, s.mapPage[slot := page], s.dirty[slot := false], s.used, s'.stored)
      && |s'.stored| == |s.stored|
      && (forall m :: 0 <= m < |s.stored| && !(s.dirty[slot] && m == s.mapPage[slot]) ==> s'.stored[m] == s.stored[m])
  }

  // get_map_page for `page`, which ends in `slot`.
  ghost predicate Looked(s: Lru, s': Lru, page: int, flag: Flag, slot: int)
    requires Fit(s)
  {
    Seated(s, s', page, slot) && Order(s.chain, s'.chain, slot, flag)
  }

  // A lookup that ends in `slot`, whose page is then changed.
  ghost predicate Entered(s: Lru, s': Lru, page: int, flag: Flag, slot: int)
    requires Fit(s)
  {
    exists looked ::
      Looked(s, looked, page, flag, slot) && 0 <= slot < |looked.dirty| &&
      s' == looked.(dirty := looked.dirty[slot := true])
  }

  // Collection may fill empty slots, which then come first, but leaves the
  // order of the slots in use alone; a full cache is read through its last slot.
  ghost predicate OnlyAdds(s: Lru, s': Lru) {
    && |s.chain| <= |s'.chain| && s'.chain[|s'.chain| - |s.chain|..] == s.chain
    && s.used <= s'.used && |s'.mapPage| == |s.mapPage|
    && (s.used == |s.mapPage| ==>
          && s'.chain == s.chain && s'.used == s.used
          && (forall x :: 0 <= x < |s.mapPage| && s.chain != [] && x != s.chain[|s.chain| - 1] ==>
                s'.mapPage[x] == s.mapPage[x]))
  }

  lemma Reflexive(s: Lru)
    ensures OnlyAdds(s, s)
  {
    assert s.chain[|s.chain| - |s.chain|..] == s.chain;
  }

  lemma NoReorder(s: Lru, t: Lru, t': Lru, page: int, slot: int)
    requires Fit(t) && OnlyAdds(s, t) && Entered(t, t', page, InterGC, slot)
    ensures OnlyAdds(s, t')
  {
    hide OnlyAdds;
    OneLookup(t, t', page, slot);
    Transitive(s, t, t');
  }

  lemma Transitive(s: Lru, t: Lru, u: Lru)
    requires OnlyAdds(s, t) && OnlyAdds(t, u)
    ensures OnlyAdds(s, u)
  {
    assert u.chain[|u.chain| - |s.chain|..] == u.chain[|u.chain| - |t.chain|..][|t.chain| - |s.chain|..];
  }

  lemma OneLookup(t: Lru, t': Lru, page: int, slot: int)
    requires Fit(t) && Entered(t, t', page, InterGC, slot)
    ensures OnlyAdds(t, t')
  {
    var looked :| Looked(t, looked, page, InterGC, slot) && t' == looked.(dirty := t'.dirty);
    assert t'.chain == if slot in t.chain then t.chain else [slot] + t.chain;
    assert t'.chain[|t'.chain| - |t.chain|..] == t.chain;
  }

  function WithWord(page: Page, offset: nat, word: nat): Page
    requires offset < |page|
  {
    page[offset := word]
  }

  // ------------------------------------------------ the cache itself

  class PageCache {
    const store: Store
    const mapPage: array<int>       // CACHE_MAPPING_TABLE[].map_page
    const next: array<int>          // CACHE_MAPPING_TABLE[].lru_next
    const dirty: array<bool>        // CACHE_MAP_DIRTY_TABLE
    const buf: array<Page>          // CACHE_ADDR
    var head: int                   // CACHE_LRU_HEAD
    var used: int                   // num_cached
    ghost var chain: seq<int>
    ghost var view: seq<Page>

    ghost function Own(): set<object> {
      {this, mapPage, next, dirty, buf}
    }

    ghost function Repr(): set<object> {
      Own() + store.footprint
    }

    ghost function Cells(): Slots
      reads Own()
    {
      Slots(mapPage[..], dirty[..], buf[..], used)
    }

    ghost predicate ChainOk()
      reads this, next
    {
      && 2 <= mapPage.Length == next.Length
      && Linked(next[..], head, chain)
      && (forall x :: x in chain <==> 0 <= x < |chain|)
      && (forall x :: |chain| <= x < next.Length ==> next[x] == NIL)
      && |chain| <= mapPage.Length
    }

    ghost predicate Outside() {
      && this !in store.footprint && mapPage !in store.footprint && next !in store.footprint
      && dirty !in store.footprint && buf !in store.footprint
    }

    ghost predicate Shows(v: seq<Page>)
      reads Repr()
    {
      && Outside() && mapPage != next && |v| == store.total <= NO_PAGE
      && store.Valid()
      && Coherent(Cells(), store.Pages(), v, store.words)
    }

    ghost predicate Valid()
      reads Repr()
    {
      ChainOk() && |chain| == used && Shows(view)
    }

    ghost function Now(): (s: Lru)
      requires Valid()
      reads Repr()
      ensures Fit(s)
    {
      Lru(chain, mapPage[..], dirty[..], used, store.Pages())
    }

    // The tables as RSP_Open initialises them.
    constructor (st: Store, pages: array<int>, links: array<int>, marks: array<bool>, frames: array<Page>)
      requires st.Valid() && st.total <= NO_PAGE
      requires 2 <= pages.Length == links.Length == marks.Length == frames.Length && pages != links
      requires pages !in st.footprint && links !in st.footprint && marks !in st.footprint && frames !in st.footprint
      requires forall x :: 0 <= x < pages.Length ==> pages[x] == NO_PAGE && links[x] == NIL && !marks[x]
      ensures Valid() && store == st && view == st.Pages()
    {
      store, mapPage, next, dirty, buf := st, pages, links, marks, frames;
      head, used := NIL, 0;
      chain := [];
      view := st.Pages();
      new;
      EmptyCache(Cells(), view, store.words);
    }

    // The walk of get_map_page: the slot holding `page`, or the chain's end.
    method Find(page: int) returns (iter: int, prev: int, tail: int, ghost at: nat)
      requires ChainOk() && |chain| == used && page != NO_PAGE
      ensures iter == NIL ==> forall x :: 0 <= x < used ==> mapPage[x] != page
      ensures iter != NIL ==> at < |chain| && iter == chain[at] && 0 <= iter < used && mapPage[iter] == page
      ensures iter != NIL ==> prev == if at == 0 then NIL else chain[at - 1]
      ensures iter == NIL ==> tail == if chain == [] then NIL else chain[|chain| - 1]
      ensures iter == NIL ==> prev == if |chain| < 2 then NIL else chain[|chain| - 2]
    {
      iter, prev, tail := head, NIL, NIL;
      at := 0;
      while iter != NIL && mapPage[iter] != page
        invariant iter != NIL ==> at < |chain| && iter == chain[at] && iter in chain
        invariant iter != NIL ==> prev == if at == 0 then NIL else chain[at - 1]
        invariant forall j :: 0 <= j < at <= |chain| ==> mapPage[chain[j]] != page
        invariant at <= |chain|
        invariant iter == NIL ==> at == |chain| && tail == if chain == [] then NIL else chain[|chain| - 1]
        invariant iter == NIL ==> prev == if |chain| < 2 then NIL else chain[|chain| - 2]
        decreases |chain| - at
      {
        assert at + 1 < |chain| ==> next[iter] == chain[at + 1] && chain[at + 1] in chain;
        assert at + 1 == |chain| ==> next[..][chain[|chain| - 1]] == NIL;
        if next[iter] == NIL {
          tail := iter;
          iter := NIL;
        } else {
          prev := iter;
          iter := next[iter];
        }
        at := at + 1;
      }
      if iter == NIL {
        forall x | 0 <= x < used
          ensures mapPage[x] != page
        {
          assert x in chain;
        }
      }
    }

    // Writing a slot back to flash.
    method Sync(x: int)
      requires Shows(view) && 0 <= x < used
      modifies dirty, store.footprint
      ensures Shows(view) && Cells() == old(Cells()).(dirty := old(Cells()).dirty[x := false])
      ensures store.Pages() == old(store.Pages())[mapPage[x] := buf[x]]
    {
      hide Store.Valid;
      Synced(Cells(), store.Pages(), view, store.words, x);
      store.Write(mapPage[x], buf[x]);
      dirty[x] := false;
      assert dirty[..] == old(dirty[..])[x := false];
    }

    // map_read of page `m` into slot `x`.
    method Load(x: int, m: int)
      requires Shows(view) && 0 <= m < |view| && Uncached(Cells(), m)
      requires (0 <= x < used && !dirty[x]) || (x == used < mapPage.Length)
      modifies mapPage, buf, this`used
      ensures Shows(view) && mapPage[..] == old(mapPage[..])[x := m]
      ensures used == (if x == old(used) then x + 1 else old(used)) && store.Pages() == old(store.Pages())
    {
      hide Store.Valid, Linked;
      ghost var stored := store.Pages();
      store.PageSize(m);
      Loaded(Cells(), stored, view, store.words, x, m);
      var page := store.Read(m);
      Fill(x, m, page);
      assert store.Valid() && store.Pages() == stored;
      assert Coherent(Cells(), stored, view, store.words);
    }

    method Fill(x: int, m: int, page: Page)
      requires 0 <= x < mapPage.Length == buf.Length && x <= used && mapPage != next
      modifies mapPage, buf, this`used
      ensures Cells() == old(Cells()).(mapPage := old(mapPage[..])[x := m], buf := old(buf[..])[x := page],
                                       used := if x == old(used) then x + 1 else old(used))
    {
      mapPage[x] := NO_PAGE;
      buf[x] := page;
      if x == used {
        used := used + 1;
      }
      mapPage[x] := m;
      assert mapPage[..] == old(mapPage[..])[x := m];
      assert buf[..] == old(buf[..])[x := page];
    }

    // Linking a slot at the head of the chain.
    method LinkNew(slot: int)
      requires ChainOk() && slot == |chain| < mapPage.Length
      modifies next, this`head, this`chain
      ensures ChainOk() && chain == [slot] + old(chain)
    {
      LinkFront(next[..], head, chain, slot);
      if head == NIL {
        head := slot;
      } else {
        next[slot] := head;
        head := slot;
      }
      assert next[..] == old(next[..])[slot := old(head)];
      chain := [slot] + chain;
    }

    // Moving the slot at position `i` of the chain to its head.
    method Relink(slot: int, prev: int, ghost i: nat)
      requires ChainOk() && 0 < i < |chain| && slot == chain[i] && prev == chain[i - 1]
      modifies next, this`head, this`chain
      ensures ChainOk() && chain == ToFront(old(chain), i)
    {
      LinkToFront(next[..], head, chain, i);
      ToFrontAt(chain, i);
      assert chain[i - 1] in chain && chain[i] in chain;
      next[prev] := next[slot];
      next[slot] := head;
      head := slot;
      assert next[..] == old(next[..])[old(chain)[i - 1] := old(next[..])[old(chain)[i]]][old(chain)[i] := old(head)];
      chain := ToFront(chain, i);
    }

    // The slot at position `i` becomes the most recently used one.
    method Touch(slot: int, prev: int, ghost i: nat)
      requires Valid() && 0 < i < |chain| && slot == chain[i] && prev == chain[i - 1]
      modifies next, this`head, this`chain
      ensures Valid() && Promoted(old(chain), chain, slot)
      ensures Now() == old(Now()).(chain := chain)
    {
      hide Coherent, Store.Valid;
      assert slot in chain;
      Relink(slot, prev, i);
    }

    // get_map_page
    method GetMapPage(page: int, flag: Flag) returns (slot: int)
      requires Valid() && 0 <= page < |view|
      modifies Own(), store.footprint
      ensures Valid() && view == old(view)
      ensures 0 <= slot < used && mapPage[slot] == page
      ensures Looked(old(Now()), Now(), page, flag, slot)
    {
      hide Store.Valid, Coherent;
      var iter, prev, tail;
      ghost var at;
      iter, prev, tail, at := Find(page);
      if iter == NIL {
        slot := Miss(page, flag, prev, tail);
      } else {
        slot := iter;
        Hit(page, flag, iter, prev, at);
      }
    }

    lemma HitAt(at: nat)
      requires Valid() && at < |chain|
      ensures 0 <= chain[at] < used <= mapPage.Length && chain[at] in chain
      ensures 0 < at ==> chain[at - 1] != NIL
      ensures Cached(Now(), mapPage[chain[at]])
    {
      hide Store.Valid, Coherent;
      assert chain[at] in chain && Now().mapPage[..used][chain[at]] == mapPage[chain[at]];
    }

    method Hit(page: int, flag: Flag, iter: int, prev: int, ghost at: nat)
      requires Valid() && at < |chain| && iter == chain[at] && 0 <= iter < used && mapPage[iter] == page
      requires prev == if at == 0 then NIL else chain[at - 1]
      modifies next, this`head, this`chain
      ensures Valid() && view == old(view) && used == old(used)
      ensures Looked(old(Now()), Now(), page, flag, iter)
    {
      hide Store.Valid, Coherent, Linked, Shows, Promoted;
      HitAt(at);
      // prev == NIL means the entry is already the most recently used
      if !ForGc(flag) && prev != NIL {
        Touch(iter, prev, at);
      } else {
        FirstStays(chain);
      }
    }

    lemma NotCached(page: int)
      requires Valid() && Uncached(Cells(), page)
      ensures !Cached(Now(), page)
    {
      hide Store.Valid, Linked;
      forall x | 0 <= x < used
        ensures mapPage[..][..used][x] != page
      {
        assert Cells().mapPage[x] != page;
      }
    }

    method Miss(page: int, flag: Flag, prev: int, tail: int) returns (slot: int)
      requires Valid() && 0 <= page < |view| && Uncached(Cells(), page)
      requires tail == if chain == [] then NIL else chain[|chain| - 1]
      requires prev == if |chain| < 2 then NIL else chain[|chain| - 2]
      modifies Own(), store.footprint
      ensures Valid() && view == old(view)
      ensures 0 <= slot < used && mapPage[slot] == page
      ensures Looked(old(Now()), Now(), page, flag, slot)
    {
      hide Coherent, Store.Valid;
      NotCached(page);
      if used != mapPage.Length {
        slot := FillNew(page);
      } else {
        slot := tail;
        FillOldest(page, flag, prev, tail);
      }
    }

    // The cache has an empty slot.
    method FillNew(page: int) returns (slot: int)
      requires Valid() && 0 <= page < |view| && Uncached(Cells(), page) && used != mapPage.Length
      modifies Own(), store.footprint
      ensures Valid() && view == old(view)
      ensures 0 <= slot < used && mapPage[slot] == page
      ensures slot == old(used) && slot !in old(chain) && chain == [slot] + old(chain)
      ensures Now() == Lru(chain, old(mapPage[..])[slot := page], old(dirty[..]), old(used) + 1, old(store.Pages()))
    {
      hide Coherent, Store.Valid;
      slot := used;
      Load(slot, page);
      LinkNew(slot);
    }

    // The cache is full: the least recently used page makes room.
    method FillOldest(page: int, flag: Flag, prev: int, tail: int)
      requires Valid() && 0 <= page < |view| && Uncached(Cells(), page) && used == mapPage.Length
      requires |chain| >= 2 && tail == chain[|chain| - 1] && prev == chain[|chain| - 2]
      modifies Own(), store.footprint
      ensures Valid() && view == old(view)
      ensures 0 <= tail < used && mapPage[tail] == page
      ensures Order(old(chain), chain, tail, flag)
      ensures Now() == Lru(chain, old(mapPage[..])[tail := page], old(dirty[..])[tail := false], old(used),
                           store.Pages())
      ensures store.Pages() == old(if dirty[tail] then store.Pages()[mapPage[tail] := buf[tail]] else store.Pages())
    {
      hide Coherent, Store.Valid;
      assert tail in chain;
      Evict(tail, page);
      if !ForGc(flag) {
        Touch(tail, prev, |chain| - 1);
      }
    }

    method Evict(tail: int, page: int)
      requires Valid() && 0 <= page < |view| && Uncached(Cells(), page) && 0 <= tail < used
      modifies mapPage, buf, dirty, this`used, store.footprint
      ensures Valid() && used == old(used)
      ensures mapPage[..] == old(mapPage[..])[tail := page] && dirty[..] == old(dirty[..])[tail := false]
      ensures store.Pages() == old(if dirty[tail] then store.Pages()[mapPage[tail] := buf[tail]] else store.Pages())
    {
      hide Store.Valid, ChainOk;
      if dirty[tail] {
        Sync(tail);
      }
      assert Uncached(Cells(), page) && !dirty[tail];
      Load(tail, page);
      assert ChainOk() && |chain| == used && Shows(view);
    }

    // Reading one word of a page that get_map_page has brought in.
    method GetWord(page: int, offset: nat, flag: Flag) returns (word: nat, ghost slot: int)
      requires Valid() && 0 <= page < |view| && offset < store.words
      modifies Own(), store.footprint
      ensures Valid() && view == old(view)
      ensures offset < |view[page]| && word == view[page][offset]
      ensures Looked(old(Now()), Now(), page, flag, slot)
    {
      var at := GetMapPage(page, flag);
      SlotShows(at);
      word, slot := buf[at][offset], at;
    }

    // Writing one word of a page that get_map_page has brought in.
    method PutWord(page: int, offset: nat, word: nat, flag: Flag) returns (ghost slot: int)
      requires Valid() && 0 <= page < |view| && offset < store.words
      modifies Own(), store.footprint
      ensures Valid() && offset < |old(view)[page]|
      ensures view == old(view)[page := WithWord(old(view)[page], offset, word)]
      ensures Entered(old(Now()), Now(), page, flag, slot)
    {
      var at := GetMapPage(page, flag);
      slot := at;
      ghost var looked := Now();
      SlotShows(at);
      WriteSlot(at, WithWord(buf[at], offset, word));
    }

    lemma SlotShows(slot: int)
      requires Valid() && 0 <= slot < used
      ensures slot < buf.Length && slot < mapPage.Length && 0 <= mapPage[slot] < |view|
      ensures view[mapPage[slot]] == buf[slot] && |buf[slot]| == store.words
    {
    }

    method WriteSlot(slot: int, page: Page)
      requires Valid() && 0 <= slot < used && |page| == store.words
      requires 0 <= mapPage[slot] < |view|
      modifies buf, dirty, this`view
      ensures Valid() && view == old(view)[mapPage[slot] := page]
      ensures Now() == old(Now()).(dirty := old(dirty[..])[slot := true])
    {
      hide Store.Valid, Linked;
      ghost var stored := store.Pages();
      Updated(Cells(), stored, view, store.words, slot, page);
      SetSlot(slot, page);
      assert store.Valid() && store.Pages() == stored;
      view := view[mapPage[slot] := page];
      assert Coherent(Cells(), stored, view, store.words);
    }

    method SetSlot(slot: int, page: Page)
      requires 0 <= slot < buf.Length == dirty.Length
      modifies buf, dirty
      ensures buf[..] == old(buf[..])[slot := page] && dirty[..] == old(dirty[..])[slot := true]
    {
      buf[slot] := page;
      dirty[slot] := true;
    }

    // map_flush
    method Flush()
      requires Valid()
      modifies Own(), store.footprint
      ensures Valid() && view == old(view) && store.Pages() == view
      ensures Now() == old(Now()).(dirty := dirty[..], stored := view)
      ensures forall x :: 0 <= x < dirty.Length ==> !dirty[x]
    {
      hide Store.Valid, Linked, ChainOk;
      for i := 0 to mapPage.Length
        invariant Valid() && view == old(view) && Now() == old(Now()).(dirty := dirty[..], stored := store.Pages())
        invariant forall x :: 0 <= x < i ==> !dirty[x]
      {
        if dirty[i] {
          Sync(i);
        }
      }
      AllClean(Cells(), store.Pages(), view, store.words);
    }
  }
}
