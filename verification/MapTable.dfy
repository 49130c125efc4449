/** The logical-to-physical table: the map logs laid over the cached mapping
    table (ATLWrapper.cpp:1979-2056, 3168-3184, 3837-3884).  Whatever mixture of
    log entries, cached pages and stored pages holds the values, the table
    behaves like one flat array. */
module MapTable {
  import opened Layout
  import opened MapState
  import opened BankedStore
  import opened MapCache
  import opened GcMapLog
  import opened LogSet
  import opened RbModel
  import Addresses

  function PageOf(lpn: nat, words: nat): nat
    requires words > 0
  {
    lpn / words
  }

  function OffsetOf(lpn: nat, words: nat): nat
    requires words > 0
    ensures OffsetOf(lpn, words) < words
  {
    lpn % words
  }

  // A NAND page, a write-buffer slot or VC_MAX.
  predicate Legal(vpn: nat, nand: nat) {
    vpn <= VC_MAX && (vpn < nand || vpn >= WRITE_BUFFER_BIT)
  }

  // ------------------------------------------------ the flat table

  ghost predicate Wide(view: seq<Page>, words: nat, total: nat) {
    && words > 0 && (forall l: nat :: l < total ==> PageOf(l, words) < |view|)
    && (forall p :: 0 <= p < |view| ==> |view[p]| == words)
  }

  ghost function Lookup(ms: seq<map<nat, nat>>, view: seq<Page>, words: nat, total: nat, l: nat): nat
    requires Wide(view, words, total) && l < total
  {
    if b :| 0 <= b < |ms| && l in ms[b] then ms[b][l]
    else view[PageOf(l, words)][OffsetOf(l, words)]
  }

  ghost function Flat(ms: seq<map<nat, nat>>, view: seq<Page>, words: nat, total: nat): seq<nat>
    requires Wide(view, words, total)
  {
    seq(total, l requires 0 <= l < total => Lookup(ms, view, words, total, l))
  }

  lemma InLog(ms: seq<map<nat, nat>>, view: seq<Page>, words: nat, total: nat, b: nat, l: nat)
    requires Wide(view, words, total) && l < total && KeysApart(ms) && b < |ms| && l in ms[b]
    ensures Lookup(ms, view, words, total, l) == ms[b][l]
  {
  }

  lemma NotLogged(ms: seq<map<nat, nat>>, view: seq<Page>, words: nat, total: nat, l: nat)
    requires Wide(view, words, total) && l < total && forall b :: 0 <= b < |ms| ==> l !in ms[b]
    ensures Lookup(ms, view, words, total, l) == view[PageOf(l, words)][OffsetOf(l, words)]
  {
  }

  // Log entries that stay, and words that stay, keep an entry's value.
  lemma Unmoved(ms: seq<map<nat, nat>>, view: seq<Page>, ms': seq<map<nat, nat>>, view': seq<Page>,
                words: nat, total: nat, l: nat)
    requires Wide(view, words, total) && Wide(view', words, total) && |view'| == |view| && l < total
    requires KeysApart(ms) && KeysApart(ms') && |ms'| == |ms|
    requires forall b :: 0 <= b < |ms| ==> (l in ms[b] <==> l in ms'[b]) && (l in ms[b] ==> ms'[b][l] == ms[b][l])
    requires view'[PageOf(l, words)][OffsetOf(l, words)] == view[PageOf(l, words)][OffsetOf(l, words)]
    ensures Lookup(ms', view', words, total, l) == Lookup(ms, view, words, total, l)
  {
  }

  ghost function Stored(view: seq<Page>, words: nat, total: nat, l: nat, v: nat): seq<Page>
    requires Wide(view, words, total) && l < total
  {
    view[PageOf(l, words) := WithWord(view[PageOf(l, words)], OffsetOf(l, words), v)]
  }

  lemma StoredWord(view: seq<Page>, words: nat, total: nat, l: nat, v: nat, m: nat)
    requires Wide(view, words, total) && l < total && m < total
    ensures Wide(Stored(view, words, total, l, v), words, total)
    ensures Stored(view, words, total, l, v)[PageOf(m, words)][OffsetOf(m, words)] ==
      if m == l then v else view[PageOf(m, words)][OffsetOf(m, words)]
  {
  }

  // set_vpn: dropping the log entry and storing the word is one array update.
  lemma SetVpnFlat(ms: seq<map<nat, nat>>, view: seq<Page>, words: nat, total: nat, bank: int, l: nat, v: nat)
    requires Wide(view, words, total) && l < total && KeysApart(ms) && -1 <= bank < |ms|
    requires forall b :: 0 <= b < |ms| && b != bank ==> l !in ms[b]
    ensures KeysApart(Dropped(ms, bank, l)) && Wide(Stored(view, words, total, l, v), words, total)
    ensures Flat(Dropped(ms, bank, l), Stored(view, words, total, l, v), words, total)
      == Flat(ms, view, words, total)[l := v]
  {
    var ms', view' := Dropped(ms, bank, l), Stored(view, words, total, l, v);
    StoredWord(view, words, total, l, v, l);
    forall m | 0 <= m < total
      ensures Lookup(ms', view', words, total, m) == if m == l then v else Lookup(ms, view, words, total, m)
    {
      StoredWord(view, words, total, l, v, m);
      if m == l {
        NotLogged(ms', view', words, total, l);
      } else {
        Unmoved(ms, view, ms', view', words, total, m);
      }
    }
  }

  // set_map_log: an entry in one bank's log overrides the word below it.
  lemma SetLogFlat(ms: seq<map<nat, nat>>, view: seq<Page>, words: nat, total: nat, bank: nat, l: nat, v: nat)
    requires Wide(view, words, total) && l < total && KeysApart(ms) && bank < |ms|
    requires forall b :: 0 <= b < |ms| && b != bank ==> l !in ms[b]
    ensures KeysApart(ms[bank := With(ms[bank], l, v)])
    ensures Flat(ms[bank := With(ms[bank], l, v)], view, words, total) == Flat(ms, view, words, total)[l := v]
  {
    var ms' := ms[bank := With(ms[bank], l, v)];
    forall m | 0 <= m < total
      ensures Lookup(ms', view, words, total, m) == if m == l then v else Lookup(ms, view, words, total, m)
    {
      if m == l {
        InLog(ms', view, words, total, bank, l);
      } else {
        Unmoved(ms, view, ms', view, words, total, m);
      }
    }
  }

  // ------------------------------------------------ the table itself

  // Logged pages exist and lie in NAND.
  ghost predicate LogsLegal(ms: seq<map<nat, nat>>, total: nat, nand: nat) {
    forall b, l :: 0 <= b < |ms| && l in ms[b] ==> l < total && ms[b][l] < nand
  }

  // A bank's log holds pages of the block its collected pages go to.
  ghost predicate LogsInTarget(ms: seq<map<nat, nat>>, target: seq<nat>) {
    && |target| == |ms|
    && (forall b :: 0 <= b < |ms| ==> target[b] / Addresses.BLKS == b)
    && (forall b, l :: 0 <= b < |ms| && l in ms[b] ==> ms[b][l] / BLK_LPAGES == target[b])
  }

  // No other bank logs a page of this bank, and the record of a page nobody is
  // mapped to is free.
  lemma LogRoom(ms: seq<map<nat, nat>>, view: seq<Page>, words: nat, total: nat, target: seq<nat>, bank: nat,
                lpn: nat, vpn: nat)
    requires Wide(view, words, total) && KeysApart(ms) && LogsInTarget(ms, target) && bank < |ms| && lpn < total
    requires forall l :: l in ms[bank] ==> l < total
    requires vpn / BLK_LPAGES == target[bank]
    requires Flat(ms, view, words, total)[lpn] / Addresses.LPAGES_PER_BANK == bank
    requires vpn !in Flat(ms, view, words, total)
    ensures forall b :: 0 <= b < |ms| && b != bank ==> lpn !in ms[b]
    ensures forall l :: l in ms[bank] ==> ms[bank][l] % BLK_LPAGES != vpn % BLK_LPAGES
  {
    hide Lookup;
    forall b | 0 <= b < |ms| && lpn in ms[b]
      ensures b == bank
    {
      InLog(ms, view, words, total, b, lpn);
      BankOfBlock(ms[b][lpn]);
    }
    forall l | l in ms[bank]
      ensures ms[bank][l] != vpn
    {
      InLog(ms, view, words, total, bank, l);
      assert Flat(ms, view, words, total)[l] == ms[bank][l];
    }
  }

  lemma BankOfBlock(v: nat)
    ensures v / Addresses.LPAGES_PER_BANK == v / BLK_LPAGES / Addresses.BLKS
  {
  }

  ghost predicate Increasing(s: seq<nat>) {
    forall a, b :: 0 <= a < b < |s| ==> s[a] < s[b]
  }

  // The visited keys are the least ones of `all`, and `rest` is what remains.
  ghost predicate Progress(visited: seq<nat>, rest: map<nat, nat>, all: map<nat, nat>) {
    && Increasing(visited)
    && (forall l :: l in all <==> l in visited || l in rest)
    && (forall l, m :: l in visited && m in rest ==> l < m)
  }

  lemma ProgressStep(visited: seq<nat>, rest: map<nat, nat>, all: map<nat, nat>, l: nat)
    requires Progress(visited, rest, all) && l in rest && forall m :: m in rest ==> l <= m
    ensures Progress(visited + [l], rest - {l}, all)
  {
    var v := visited + [l];
    forall a, b | 0 <= a < b < |v|
      ensures v[a] < v[b]
    {
      if b == |visited| { assert v[a] in visited; }
    }
  }

  class MapTable {
    const cache: PageCache
    const logs: Logs
    const total: nat        // NUM_LBLK * PAGES_PER_BLK * LPAGE_PER_PPAGE
    const nand: nat         // NUM_PBLK * PAGES_PER_BLK * LPAGE_PER_PPAGE
    var target: seq<nat>    // the block of each bank's cur_gc_vpn, counted over all banks

    ghost function Parts(): set<object> {
      cache.Repr() + logs.area
    }

    ghost function Repr(): set<object> {
      Parts() + {this}
    }

    ghost predicate Valid()
      reads Repr()
    {
      && cache.Valid() && logs.Valid() && cache.Repr() !! logs.area && this !in Parts()
      && LogsInTarget(logs.Maps(), target)
      && (forall b :: 0 <= b < |logs.logs| ==> logs.logs[b].links.nodes.Length == BLK_LPAGES)
      && total <= TWO31 && nand <= VC_MAX
      && Wide(cache.view, cache.store.words, total)
      && KeysApart(logs.Maps()) && LogsLegal(logs.Maps(), total, nand)
      && (forall v :: v in Flat(logs.Maps(), cache.view, cache.store.words, total) ==> Legal(v, nand))
    }

    // The table as one array.
    ghost function Table(): seq<nat>
      requires Valid()
      reads Repr()
    {
      Flat(logs.Maps(), cache.view, cache.store.words, total)
    }

    // Everything unmapped, as RSP_Open leaves the table.
    constructor (c: PageCache, ls: Logs, lpages: nat, vpages: nat)
      requires c.Valid() && ls.Valid() && c.Repr() !! ls.area && lpages <= TWO31 && vpages <= VC_MAX
      requires c.store.words > 0 && |c.view| == DivUp(lpages, c.store.words)
      requires forall p :: 0 <= p < |c.view| ==> c.view[p] == Blank(c.store.words)
      requires forall b :: 0 <= b < |ls.Maps()| ==> ls.Maps()[b] == map[]
      requires forall b :: 0 <= b < |ls.logs| ==> ls.logs[b].links.nodes.Length == BLK_LPAGES
      ensures Valid() && Table() == seq(lpages, _ => VC_MAX)
      ensures cache == c && logs == ls && total == lpages && nand == vpages
    {
      cache, logs, total, nand := c, ls, lpages, vpages;
      target := seq(|ls.logs|, b => b * Addresses.BLKS);
      new;
      hide PageCache.Valid, Logs.Valid, Lookup;
      BlankTable(ls.Maps(), c.view, c.store.words, lpages);
    }

    // get_vpn
    method GetVpn(lpn: nat, flag: Flag) returns (vpn: nat, ghost at: int)
      requires Valid() && lpn < total
      modifies cache.Own(), cache.store.footprint
      ensures Valid() && Table() == old(Table())
      ensures vpn == Table()[lpn] && Legal(vpn, nand)
      ensures !Logged(logs.Maps(), lpn) ==>
        var m, i := lpn / cache.store.words, lpn % cache.store.words;
        m < |cache.view| && i < |cache.view[m]| && vpn == cache.view[m][i]
      ensures if Logged(logs.Maps(), lpn) then cache.Now() == old(cache.Now())
              else Looked(old(cache.Now()), cache.Now(), lpn / cache.store.words, flag, at)
    {
      hide PageCache.Valid, Logs.Valid, Wide, KeysApart, Looked, Lookup;
      var bank, slot;
      ghost var k, t;
      ghost var ms := logs.Maps();
      var words := cache.store.words;
      bank, slot, k, t := logs.GetMapLog(lpn);
      if bank != -1 {
        // map log hit
        vpn := logs.logs[bank].links.nodes[slot].vpn;
        at := -1;
        InLog(ms, cache.view, words, total, bank, lpn);
      } else {
        WordExists(cache.view, words, total, lpn);
        vpn, at := cache.GetWord(PageOf(lpn, words), OffsetOf(lpn, words), flag);
        NotLogged(ms, cache.view, words, total, lpn);
      }
      assert vpn == Table()[lpn] && vpn in Table();
    }

    // set_vpn
    method SetVpn(lpn: nat, vpn: nat, flag: Flag) returns (ghost bank: int, ghost slot: int, ghost at: int)
      requires Valid() && lpn < total && Legal(vpn, nand)
      modifies Parts()
      ensures Valid() && Table() == old(Table())[lpn := vpn]
      ensures logs.Forgot(bank, slot, lpn)
      ensures Entered(old(cache.Now()), cache.Now(), lpn / cache.store.words, flag, at)
      ensures var m, i := lpn / cache.store.words, lpn % cache.store.words;
        && m < |old(cache.view)| && i < |old(cache.view)[m]|
        && cache.view == old(cache.view)[m := WithWord(old(cache.view)[m], i, vpn)]
    {
      hide PageCache.Valid, Logs.Valid, KeysApart, Lookup, MapLog.Valid, MapLog.Contents, Entered;
      ghost var ms, view := logs.Maps(), cache.view;
      var words := cache.store.words;
      bank, slot := logs.Forget(lpn);
      WordExists(view, words, total, lpn);
      at := cache.PutWord(PageOf(lpn, words), OffsetOf(lpn, words), vpn, flag);
      SetVpnFlat(ms, view, words, total, bank, lpn, vpn);
    }

    // set_map_log: a page of the bank moves to a page of the block being written
    // to, which nobody is mapped to.
    method SetMapLog(bank: nat, lpn: nat, vpn: nat)
      requires Valid() && bank < |logs.logs| && lpn < total && vpn < nand
      requires Table()[lpn] / Addresses.LPAGES_PER_BANK == bank
      requires vpn / BLK_LPAGES == target[bank] && vpn !in Table()
      modifies logs.area
      ensures Valid() && Table() == old(Table())[lpn := vpn]
      ensures logs.Maps() == old(logs.Maps())[bank := With(old(logs.Maps())[bank], lpn, vpn)]
    {
      hide PageCache.Valid, KeysApart, Lookup, MapLog.Valid, MapLog.Contents, Wide;
      ghost var ms := logs.Maps();
      LogRoom(ms, cache.view, cache.store.words, total, target, bank, lpn, vpn);
      logs.Set(bank, lpn, vpn);
      SetLogFlat(ms, cache.view, cache.store.words, total, bank, lpn, vpn);
    }

    // The start of write_gc_buffer with a full block: the bank's log is emptied,
    // and another block of the bank is written to.
    method OpenTarget(bank: nat, block: nat) returns (ghost visited: seq<nat>)
      requires Valid() && bank < |logs.logs| && block / Addresses.BLKS == bank
      modifies Repr()
      ensures Valid() && Table() == old(Table()) && target == old(target)[bank := block]
      ensures logs.Maps() == old(logs.Maps())[bank := map[]]
      ensures OnlyAdds(old(cache.Now()), cache.Now())
    {
      hide PageCache.Valid, KeysApart, Lookup, MapLog.Valid, MapLog.Contents, Wide, OnlyAdds;
      visited := FlushMapLog(bank);
      target := target[bank := block];
    }

    // flush_map_log: every entry of the bank's log is visited exactly once, in
    // ascending order, although each visit erases the node it has come to.
    method FlushMapLog(bank: nat) returns (ghost visited: seq<nat>)
      requires Valid() && bank < |logs.logs|
      modifies Parts()
      ensures Valid() && Table() == old(Table())
      ensures logs.Maps() == old(logs.Maps())[bank := map[]]
      ensures Increasing(visited) && forall l :: l in visited <==> l in old(logs.Maps())[bank]
      ensures OnlyAdds(old(cache.Now()), cache.Now())
    {
      hide PageCache.Valid, MapLog.Valid, MapLog.Contents, Wide, KeysApart, Lookup, LogsLegal, OnlyAdds, Entered;
      assert OnlyAdds(cache.Now(), cache.Now()) by { Reflexive(cache.Now()); }
      ghost var ms := logs.Maps();
      ghost var cache0 := cache.Now();
      var log := logs.logs[bank];
      var node := log.First();
      visited := [];
      while node != RbModel.NIL
        invariant Valid() && Table() == old(Table())
        invariant node == FirstOf(Inorder(log.tree))
        invariant |logs.Maps()| == |ms| && logs.Maps() == ms[bank := logs.Maps()[bank]]
        invariant Progress(visited, logs.Maps()[bank], ms[bank])
        invariant OnlyAdds(cache0, cache.Now())
        decreases logs.Maps()[bank].Keys
      {
        ghost var rest := logs.Maps()[bank];
        ghost var lpn, at;
        ghost var before := cache.Now();
        node, lpn, at := FlushEntry(bank, node);
        NoReorder(cache0, before, cache.Now(), lpn / cache.store.words, at);
        ProgressStep(visited, rest, ms[bank], lpn);
        visited := visited + [lpn];
      }
      NothingLeft(bank);
      ClearRoot(bank);
    }

    lemma NothingLeft(bank: nat)
      requires Valid() && bank < |logs.logs| && FirstOf(Inorder(logs.logs[bank].tree)) == RbModel.NIL
      ensures logs.Maps()[bank] == map[]
    {
      logs.logs[bank].FirstEntry();
    }

    method ClearRoot(bank: nat)
      requires Valid() && bank < |logs.logs| && logs.Maps()[bank] == map[]
      modifies logs.area
      ensures Valid() && Table() == old(Table()) && logs.Maps() == old(logs.Maps())
      ensures cache.Now() == old(cache.Now())
    {
      logs.Clear(bank);
    }

    // One round of flush_map_log.
    method FlushEntry(bank: nat, node: int) returns (next: int, ghost lpn: nat, ghost at: int)
      requires Valid() && bank < |logs.logs| && node != RbModel.NIL && node == FirstOf(Inorder(logs.logs[bank].tree))
      modifies Parts()
      ensures Valid() && Table() == old(Table())
      ensures lpn in old(logs.Maps())[bank] && forall l :: l in old(logs.Maps())[bank] ==> lpn <= l
      ensures logs.Maps() == old(logs.Maps())[bank := old(logs.Maps())[bank] - {lpn}]
      ensures next == FirstOf(Inorder(logs.logs[bank].tree))
      ensures cache.store.words > 0
      ensures Entered(old(cache.Now()), cache.Now(), lpn / cache.store.words, InterGC, at)
    {
      hide PageCache.Valid, MapLog.Valid, MapLog.Contents, Wide, Lookup, RedBlack, Rep, Entered;
      ghost var ms := logs.Maps();
      var log := logs.logs[bank];
      log.FirstEntry();
      assert ms[bank] == log.Contents();
      var entry := log.links.nodes[node];
      lpn := entry.lpn;
      InLog(ms, cache.view, cache.store.words, total, bank, lpn);
      WordExists(cache.view, cache.store.words, total, lpn);
      ghost var b, slot;
      b, slot, at := SetVpn(entry.lpn, entry.vpn, InterGC);
      assert b == bank && slot == node;
      next := log.Next(node, false, Top, Leaf);
    }

    // map_flush: afterwards flash holds every word of the cached table.
    method MapFlush()
      requires Valid()
      modifies cache.Own(), cache.store.footprint
      ensures Valid() && Table() == old(Table()) && logs.Maps() == old(logs.Maps())
      ensures Table() == Flat(logs.Maps(), cache.store.Pages(), cache.store.words, total)
    {
      cache.Flush();
    }
  }

  lemma WordExists(view: seq<Page>, words: nat, total: nat, l: nat)
    requires Wide(view, words, total) && l < total
    ensures words > 0 && PageOf(l, words) < |view| && |view[PageOf(l, words)]| == words
  {
  }

  lemma BlankTable(ms: seq<map<nat, nat>>, view: seq<Page>, words: nat, total: nat)
    requires words > 0 && |view| == DivUp(total, words)
    requires forall p :: 0 <= p < |view| ==> view[p] == Blank(words)
    requires forall b :: 0 <= b < |ms| ==> ms[b] == map[]
    ensures Wide(view, words, total) && Flat(ms, view, words, total) == seq(total, _ => VC_MAX)
  {
    DivUpBounds(total, words, 0);
    forall l: nat | l < total
      ensures PageOf(l, words) < |view|
    {
      InRange(l, words, |view|);
      assert PageOf(l, words) == BankOf(l, words);
    }
    forall l: nat | l < total
      ensures Lookup(ms, view, words, total, l) == VC_MAX
    {
      NotLogged(ms, view, words, total, l);
    }
  }
}
