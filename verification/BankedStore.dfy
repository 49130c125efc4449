/** The mapping tables of all banks seen as one array of map pages: map page
    `m` belongs to bank `m / NUM_MAP_ENTRY_PER_BANK` (ATLWrapper.cpp:355, 391). */
module BankedStore {
  import opened Layout
  import opened MapState
  import opened MapStore

  function BankOf(m: nat, perBank: nat): nat
    requires perBank > 0
  {
    m / perBank
  }

  function EntryOf(m: nat, perBank: nat): nat
    requires perBank > 0
  {
    m % perBank
  }

  function Blank(w: nat): Page {
    seq(w, _ => VC_MAX)
  }

  lemma OtherPlace(m: nat, k: nat, perBank: nat)
    requires perBank > 0
    ensures m != k ==> BankOf(m, perBank) != BankOf(k, perBank) || EntryOf(m, perBank) != EntryOf(k, perBank)
  {
  }

  class Store {
    const banks: seq<MapBank>
    const perBank: nat
    const total: nat      // NUM_MAP_ENTRY
    const words: nat

    ghost const footprint: set<object>

    ghost predicate BanksValid()
      reads footprint
    {
      forall b :: b in banks ==> b.Repr() <= footprint && b.Valid() && b.mapping.Length == perBank && b.words == words
    }

    ghost predicate Valid()
      reads footprint
    {
      && perBank > 0
      && BanksValid()
      && (forall i, j :: 0 <= i < j < |banks| ==> banks[i].Repr() !! banks[j].Repr())
      && (forall m :: 0 <= m < total ==> BankOf(m, perBank) < |banks| && banks[BankOf(m, perBank)] in banks)
      && (forall m :: 0 <= m < total ==> |PageAt(m)| == words)
    }

    ghost function PageAt(m: nat): Page
      requires perBank > 0 && m < total && BankOf(m, perBank) < |banks|
      requires BanksValid()
      reads footprint
    {
      banks[BankOf(m, perBank)].Pages()[EntryOf(m, perBank)]
    }

    ghost function Pages(): seq<Page>
      requires Valid()
      reads footprint
    {
      seq(total, m requires 0 <= m < total && Valid() reads footprint => PageAt(m))
    }

    lemma PageSize(m: nat)
      requires Valid() && m < total
      ensures |Pages()[m]| == words
    {
    }

    // All banks as RSP_Open leaves them.
    constructor (bs: seq<MapBank>, entries: nat, n: nat, w: nat, ghost objects: set<object>)
      requires entries > 0 && n <= entries * |bs|
      requires forall b :: b in bs ==> b.Repr() <= objects && b.Valid() && b.mapping.Length == entries && b.words == w
      requires forall b :: b in bs ==> b.Pages() == seq(entries, _ => Blank(w))
      requires forall i, j :: 0 <= i < j < |bs| ==> bs[i].Repr() !! bs[j].Repr()
      ensures Valid() && banks == bs && perBank == entries && total == n && words == w
      ensures Pages() == seq(n, _ => Blank(w)) && footprint == objects
    {
      banks := bs;
      perBank := entries;
      total := n;
      words := w;
      footprint := objects;
      new;
      forall m | 0 <= m < total
        ensures BankOf(m, perBank) < |banks| && banks[BankOf(m, perBank)] in banks
        ensures PageAt(m) == Blank(w)
      {
        InRange(m, entries, |bs|);
        var b := bs[BankOf(m, entries)];
        assert b in bs && b.Pages()[EntryOf(m, entries)] == Blank(w);
      }
    }

    method Read(m: nat) returns (page: Page)
      requires Valid() && m < total
      ensures page == Pages()[m]
    {
      page := banks[BankOf(m, perBank)].Read(EntryOf(m, perBank));
    }

    method Write(m: nat, page: Page)
      requires Valid() && m < total && |page| == words
      modifies footprint
      ensures Valid() && Pages() == old(Pages())[m := page]
      ensures BankOf(m, perBank) == m / perBank < |banks| && banks[m / perBank] in banks
      ensures banks[m / perBank].Pages() == old(banks[m / perBank].Pages())[m % perBank := page]
      ensures forall b :: 0 <= b < |banks| && b != m / perBank ==> banks[b].Pages() == old(banks[b].Pages())
    {
      hide MapBank.Valid, MapBank.Pages;
      Put(m, page);
    }

    method Put(m: nat, page: Page)
      requires Valid() && m < total && |page| == words
      modifies footprint
      ensures BanksValid()
      ensures forall k :: 0 <= k < total ==> PageAt(k) == if k == m then page else old(PageAt(k))
      ensures BankOf(m, perBank) < |banks| && banks[BankOf(m, perBank)] in banks
      ensures banks[BankOf(m, perBank)].Pages() == old(banks[BankOf(m, perBank)].Pages())[EntryOf(m, perBank) := page]
      ensures forall b :: 0 <= b < |banks| && b != BankOf(m, perBank) ==> banks[b].Pages() == old(banks[b].Pages())
    {
      hide MapBank.Valid;
      WriteBank(BankOf(m, perBank), EntryOf(m, perBank), page);
      forall k | 0 <= k < total
        ensures PageAt(k) == if k == m then page else old(PageAt(k))
      {
        OtherPlace(k, m, perBank);
      }
    }

    // A write to one bank leaves the other banks' pages alone.
    method WriteBank(b: nat, e: nat, page: Page)
      requires perBank > 0 && BanksValid() && b < |banks| && e < perBank
      requires forall i, j :: 0 <= i < j < |banks| ==> banks[i].Repr() !! banks[j].Repr()
      modifies footprint
      ensures BanksValid()
      ensures banks[b].Pages() == old(banks[b].Pages())[e := page]
      ensures forall i :: 0 <= i < |banks| && i != b ==> banks[i].Pages() == old(banks[i].Pages())
    {
      assert banks[b] in banks;
      ghost var victim := banks[b].Write(e, page);
      forall i | 0 <= i < |banks| && i != b
        ensures banks[i].Repr() !! banks[b].Repr()
      {
        if i < b { assert banks[i].Repr() !! banks[b].Repr(); }
        else { assert banks[b].Repr() !! banks[i].Repr(); }
      }
    }
  }

  lemma InRange(m: nat, perBank: nat, banks: nat)
    requires perBank > 0 && m < perBank * banks
    ensures BankOf(m, perBank) < banks
  {
  }
}
