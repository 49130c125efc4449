/** The circular lists of blocks, threaded through block_list
    (ATLWrapper.cpp:3081-3151). */
module CircularLists {
  import opened Layout
  import opened FlashState
  import opened GcSpace

  const NIL: int := -1

  function Succ(i: int, n: int): int {
    if i + 1 == n then 0 else i + 1
  }

  // The links of `items` form one circle in list order.
  ghost predicate Circle(next: seq<int>, before: seq<int>, items: seq<int>) {
    && |next| == |before| && NoDup(items)
    && (forall i :: 0 <= i < |items| ==> 0 <= items[i] < |next|)
    && (forall i, j :: 0 <= i < |items| && j == Succ(i, |items|) ==> next[items[i]] == items[j]
                                                                     && before[items[j]] == items[i])
  }

  // Linking `x` between the last and the first block.
  lemma LinkBehind(next: seq<int>, before: seq<int>, items: seq<int>, x: int)
    requires Circle(next, before, items) && items != [] && 0 <= x < |next| && x !in items
    ensures var h, l := items[0], items[|items| - 1];
      before[h] == l && Circle(next[x := h][l := x], before[x := l][h := x], items + [x])
  {
  }

  // A circle may be read from any of its blocks.
  lemma Rotate(next: seq<int>, before: seq<int>, items: seq<int>, x: int)
    requires Circle(next, before, items + [x])
    ensures Circle(next, before, [x] + items)
  {
    var a, b, n := items + [x], [x] + items, |items| + 1;
    forall i | 0 <= i < n
      ensures b[i] == a[if i == 0 then n - 1 else i - 1]
    {
    }
    forall i, j | 0 <= i < n && j == Succ(i, n)
      ensures next[b[i]] == b[j] && before[b[j]] == b[i]
    {
      var i' := if i == 0 then n - 1 else i - 1;
      var j' := if j == 0 then n - 1 else j - 1;
      assert b[i] == a[i'] && b[j] == a[j'] && j' == Succ(i', n);
    }
  }

  // The positions left when the `k`-th block is taken out.
  ghost function Skip(k: int, i: int): int {
    if i < k then i else i + 1
  }

  ghost function Pred(k: int, n: int): int {
    if k == 0 then n - 1 else k - 1
  }

  lemma SkipSucc(k: int, i: int, n: int)
    requires 0 <= k < n && 1 < n && 0 <= i < n - 1
    ensures var j := Succ(i, n - 1);
      if Skip(k, i) == Pred(k, n) then Skip(k, j) == Succ(k, n) else Skip(k, j) == Succ(Skip(k, i), n)
    ensures Skip(k, i) != k && 0 <= Skip(k, i) < n
  {
  }

  // Linking a block's neighbours to each other.
  lemma Unlink(next: seq<int>, before: seq<int>, items: seq<int>, k: int)
    requires Circle(next, before, items) && 0 <= k < |items| && |items| > 1
    ensures var x, p, q := items[k], items[Pred(k, |items|)], items[Succ(k, |items|)];
      && before[x] == p && next[x] == q
      && Circle(next[p := q], before[q := p], items[..k] + items[k + 1..])
  {
    var n, x, rest := |items|, items[k], items[..k] + items[k + 1..];
    var p, q := items[Pred(k, n)], items[Succ(k, n)];
    assert Succ(Pred(k, n), n) == k;
    forall i | 0 <= i < n - 1
      ensures rest[i] == items[Skip(k, i)]
    {
    }
    forall i, j | 0 <= i < n - 1 && j == Succ(i, n - 1)
      ensures next[p := q][rest[i]] == rest[j] && before[q := p][rest[j]] == rest[i]
    {
      SkipSucc(k, i, n);
      UnlinkAt(next, before, items, k, Skip(k, i), Skip(k, j));
    }
  }

  lemma UnlinkAt(next: seq<int>, before: seq<int>, items: seq<int>, k: int, i: int, j: int)
    requires Circle(next, before, items) && 0 <= k < |items| && |items| > 1 && 0 <= i < |items| && i != k
    requires if i == Pred(k, |items|) then j == Succ(k, |items|) else j == Succ(i, |items|)
    ensures 0 <= j < |items|
    ensures var p, q := items[Pred(k, |items|)], items[Succ(k, |items|)];
      next[p := q][items[i]] == items[j] && before[q := p][items[j]] == items[i]
  {
  }

  lemma {:induction false} WithoutAt(s: seq<int>, k: int)
    requires NoDup(s) && 0 <= k < |s|
    ensures Without(s, s[k]) == s[..k] + s[k + 1..]
  {
    if k == 0 {
    } else {
      assert s[0] != s[k];
      WithoutAt(s[1..], k - 1);
      assert s[1..][..k - 1] == s[1..k] && s[1..][k..] == s[k + 1..];
      assert s[..k] == [s[0]] + s[1..k];
    }
  }

  // A list that shares no block with the one changed is not disturbed.
  lemma OtherCircle(next: seq<int>, before: seq<int>, next': seq<int>, before': seq<int>, items: seq<int>,
                    touched: set<int>)
    requires Circle(next, before, items) && |next'| == |next| && |before'| == |before|
    requires forall i :: 0 <= i < |next| && i !in touched ==> next'[i] == next[i] && before'[i] == before[i]
    requires forall x :: x in items ==> x !in touched
    ensures Circle(next', before', items)
  {
  }

  // block_list's link fields, shared by the lists of a bank.
  class BlockTable {
    const next: array<int>
    const before: array<int>

    constructor (n: nat)
      ensures next.Length == before.Length == n && next != before && fresh(next) && fresh(before)
    {
      next, before := new int[n], new int[n];
    }
  }

  class BlockList {
    const table: BlockTable
    var head: int
    var size: int
    ghost var items: seq<int>

    ghost predicate Valid()
      reads this, table.next, table.before
    {
      && table.next != table.before && table.next.Length == table.before.Length
      && size == |items| && head == (if items == [] then NIL else items[0])
      && Circle(table.next[..], table.before[..], items)
    }

    // Links outside this list and the block inserted stay.
    twostate predicate OnlyLinks(touched: set<int>)
      reads table.next, table.before
    {
      && table.next.Length == table.before.Length
      && forall i :: 0 <= i < table.next.Length && i !in touched ==>
           table.next[i] == old(table.next[i]) && table.before[i] == old(table.before[i])
    }

    constructor (t: BlockTable)
      requires t.next != t.before && t.next.Length == t.before.Length
      ensures Valid() && items == [] && table == t
    {
      table, head, size, items := t, NIL, 0, [];
    }

    // insert_bl_tail
    method InsertTail(block: int)
      requires Valid() && 0 <= block < table.next.Length && block !in items
      modifies this, table.next, table.before
      ensures Valid() && items == old(items) + [block]
      ensures OnlyLinks(Members(old(items)) + {block})
    {
      ghost var n, b := table.next[..], table.before[..];
      if size == 0 {
        head := block;
        table.before[block] := block;
        table.next[block] := block;
        assert items + [block] == [block];
      } else {
        LinkBehind(n, b, items, block);
        assert items[0] in items && items[|items| - 1] in items;
        LinkIn(block);
        assert table.next[..] == n[block := items[0]][items[|items| - 1] := block];
        assert table.before[..] == b[block := items[|items| - 1]][items[0] := block];
      }
      size := size + 1;
      items := items + [block];
    }

    // The relinking both insertions share.
    method LinkIn(block: int)
      requires table.next != table.before && table.next.Length == table.before.Length
      requires 0 <= block < table.next.Length && 0 <= head < table.next.Length && block != head
      requires 0 <= table.before[head] < table.next.Length && table.before[head] != block
      modifies table.next, table.before
      ensures table.next[..] == old(table.next[..][block := head][table.before[head] := block])
      ensures table.before[..] == old(table.before[..][block := table.before[head]][head := block])
    {
      table.before[block] := table.before[head];
      table.next[block] := head;
      table.next[table.before[head]] := block;
      table.before[head] := block;
    }

    // insert_bl_front
    method InsertFront(block: int)
      requires Valid() && 0 <= block < table.next.Length && block !in items
      modifies this, table.next, table.before
      ensures Valid() && items == [block] + old(items)
      ensures OnlyLinks(Members(old(items)) + {block})
    {
      ghost var n, b := table.next[..], table.before[..];
      if size == 0 {
        head := block;
        table.before[head] := head;
        table.next[head] := head;
        assert [block] + items == [block];
      } else {
        LinkBehind(n, b, items, block);
        assert items[0] in items && items[|items| - 1] in items;
        LinkIn(block);
        assert table.next[..] == n[block := items[0]][items[|items| - 1] := block];
        assert table.before[..] == b[block := items[|items| - 1]][items[0] := block];
        Rotate(table.next[..], table.before[..], items, block);
        head := block;
      }
      size := size + 1;
      items := [block] + items;
    }

    // del_blk_from_list
    method Delete(block: int)
      requires Valid() && block in items
      modifies this, table.next, table.before
      ensures Valid() && items == Without(old(items), block)
      ensures OnlyLinks(Members(old(items)))
    {
      ghost var k :| 0 <= k < |items| && items[k] == block;
      WithoutAt(items, k);
      size := size - 1;
      if size == 0 {
        // the last block is linked to itself
        assert head == table.next[head] by { assert items == [head] && Succ(0, 1) == 0; }
        head := NIL;
        items := [];
      } else {
        Bypass(block, k);
      }
    }

    // The neighbours of a block that is not the last are linked to each other.
    method Bypass(block: int, ghost k: int)
      requires table.next != table.before && table.next.Length == table.before.Length && |items| > 1 && head == items[0]
      requires Circle(table.next[..], table.before[..], items) && 0 <= k < |items| && items[k] == block
      modifies this`head, this`items, table.next, table.before
      ensures items == old(items)[..k] + old(items)[k + 1..] && head == items[0]
      ensures Circle(table.next[..], table.before[..], items) && OnlyLinks(Members(old(items)))
    {
      ghost var n, b := table.next[..], table.before[..];
      Unlink(n, b, items, k);
      var p, q := table.before[block], table.next[block];
      assert p in items && q in items;
      table.next[p] := q;
      table.before[q] := p;
      if head == block {
        head := q;
      }
      assert table.next[..] == n[p := q] && table.before[..] == b[q := p];
      assert k != 0 ==> items[0] != items[k];
      items := items[..k] + items[k + 1..];
    }

    // get_free_block
    method First() returns (block: int)
      requires Valid()
      ensures block == if items == [] then VC_MAX else items[0]
    {
      if size == 0 {
        block := VC_MAX;
      } else {
        block := head;
      }
    }
  }
}
