/** The block lists and write cursors of the banks: when a log block may become
    a collection victim (ATLWrapper.cpp:1125-1136, 1470-1480, 1667-1673). */
module BlockLists {
  import opened Layout
  import opened FlashState
  import opened GcSpace
  import opened BufferState
  import opened BlockPartition
  import opened BankLaw

  datatype Lists = Lists(banks: map<int, Bank>, cursors: map<int, Cursors>)

  ghost predicate Banked(ls: Lists) {
    && ls.banks.Keys == ls.cursors.Keys
    && (forall k :: k in ls.banks ==> Apart(ls.banks[k]))
  }

  // Every temporary page is in a block of the log list.
  ghost predicate TempsListed(h: Host, ls: Lists) {
    forall l :: Temp(h, l) && 0 <= l && h.flash.table[l].Nand? ==>
      h.flash.table[l].blk.bank in ls.banks && h.flash.table[l].blk.no in ls.banks[h.flash.table[l].blk.bank].rw
  }

  // A block with live temporary pages is in the log list, so none is ever a
  // victim; a block of the log list without any is still being written.
  ghost predicate Sorted(h: Host, ls: Lists) {
    && Banked(ls) && TempsListed(h, ls)
    && (forall k, b :: k in ls.banks && b in ls.banks[k].rw && TempIn(h.flash.table, h.rwStart, Blk(k, b)) == {} ==>
          Ongoing(ls.cursors[k].rw, b))
  }

  // As Sorted, but block `x` may be due for its move.
  ghost predicate SortedBut(h: Host, ls: Lists, x: Blk) {
    && Banked(ls) && TempsListed(h, ls)
    && (forall k, b :: k in ls.banks && b in ls.banks[k].rw && Blk(k, b) != x
                       && TempIn(h.flash.table, h.rwStart, Blk(k, b)) == {} ==>
          Ongoing(ls.cursors[k].rw, b))
  }

  // The move of a finished block to the data list.
  ghost function Moved(ls: Lists, b: Blk): Lists
    requires b.bank in ls.banks && b.no in ls.banks[b.bank].rw
  {
    ls.(banks := ls.banks[b.bank := Apply(ls.banks[b.bank], RemapDone(b.no))])
  }

  lemma MovedOk(h: Host, ls: Lists, b: Blk)
    requires SortedBut(h, ls, b) && TempIn(h.flash.table, h.rwStart, b) == {}
    requires b.bank in ls.banks && b.no in ls.banks[b.bank].rw
    ensures Sorted(h, Moved(ls, b))
    ensures b.no !in Moved(ls, b).banks[b.bank].rw && b.no in Moved(ls, b).banks[b.bank].data
    ensures b.no !in ls.banks[b.bank].data
  {
    var ls' := Moved(ls, b);
    StepApart(ls.banks[b.bank], RemapDone(b.no));
    ApartFacts(ls.banks[b.bank]);
    WithoutFacts(ls.banks[b.bank].rw, b.no);
    forall l | Temp(h, l) && 0 <= l && h.flash.table[l].Nand?
      ensures h.flash.table[l].blk.bank in ls'.banks
      ensures h.flash.table[l].blk.no in ls'.banks[h.flash.table[l].blk.bank].rw
    {
      assert l in TempIn(h.flash.table, h.rwStart, h.flash.table[l].blk);
    }
  }

  lemma NotDue(h: Host, ls: Lists, b: Blk)
    requires SortedBut(h, ls, b)
    requires TempIn(h.flash.table, h.rwStart, b) == {} && b.bank in ls.banks && b.no in ls.banks[b.bank].rw ==>
      Ongoing(ls.cursors[b.bank].rw, b.no)
    ensures Sorted(h, ls)
  {
  }

  // No temporary page lives in a block of the data list, nor in an empty one.
  lemma VictimsHoldNoTemps(h: Host, ls: Lists, b: Blk)
    requires Banked(ls) && TempsListed(h, ls) && b.bank in ls.banks
    requires b.no in ls.banks[b.bank].data + ls.banks[b.bank].gc + ls.banks[b.bank].free
    ensures TempIn(h.flash.table, h.rwStart, b) == {}
  {
    ApartFacts(ls.banks[b.bank]);
  }

  lemma SortedWeak(h: Host, ls: Lists, x: Blk)
    requires Sorted(h, ls)
    ensures SortedBut(h, ls, x)
  {
  }

  // Where the temporary pages of other blocks stay, the lists stay right.
  lemma SortedKept(h: Host, h': Host, ls: Lists, x: Blk)
    requires SortedBut(h, ls, x) && |h'.flash.table| == |h.flash.table| && h'.rwStart == h.rwStart >= 0
    requires forall b :: b != x ==> TempIn(h'.flash.table, h.rwStart, b) == TempIn(h.flash.table, h.rwStart, b)
    requires TempIn(h'.flash.table, h.rwStart, x) != {} ==> x.bank in ls.banks && x.no in ls.banks[x.bank].rw
    ensures SortedBut(h', ls, x)
  {
    forall l | Temp(h', l) && 0 <= l && h'.flash.table[l].Nand?
      ensures h'.flash.table[l].blk.bank in ls.banks
      ensures h'.flash.table[l].blk.no in ls.banks[h'.flash.table[l].blk.bank].rw
    {
      var b := h'.flash.table[l].blk;
      assert l in TempIn(h'.flash.table, h.rwStart, b);
      if b != x {
        assert l in TempIn(h.flash.table, h.rwStart, b);
        assert Temp(h, l);
      }
    }
  }

  lemma SortedSame(h: Host, h': Host, ls: Lists)
    requires Sorted(h, ls) && |h'.flash.table| == |h.flash.table| && h'.rwStart == h.rwStart >= 0
    requires forall b :: TempIn(h'.flash.table, h.rwStart, b) == TempIn(h.flash.table, h.rwStart, b)
    ensures Sorted(h', ls)
  {
    forall l | Temp(h', l) && 0 <= l && h'.flash.table[l].Nand?
      ensures h'.flash.table[l].blk.bank in ls.banks
      ensures h'.flash.table[l].blk.no in ls.banks[h'.flash.table[l].blk.bank].rw
    {
      assert l in TempIn(h'.flash.table, h.rwStart, h'.flash.table[l].blk);
      assert l in TempIn(h.flash.table, h.rwStart, h'.flash.table[l].blk);
      assert Temp(h, l);
    }
  }
}
