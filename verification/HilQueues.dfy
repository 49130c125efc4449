/** The buffers of the host interface (HILWrapper.cpp:22-58, 88-301): every
    buffer is in one queue, halves are paired only at the tail of a bank queue,
    the drain loop ends, and each page's writes reach its core in the order the
    host issued them.  A queue is the sequence of its buffers from head to
    tail; the circular relinking is that of CircularLists. */
module HilQueues {
  import opened Layout
  import opened SetSizes
  import opened FlashState
  import opened GcSpace
  import opened BlockPartition

  const NUM_BUFF: int := 2560
  const PER_CORE: int := 8                 // NUM_PERBANK_QUEUE
  const BUFF_THRESHOLD: int := 32
  const SPECIAL_LPN_START: int := 14417920

  // The planes of the write buffers: CORES * 8 banks * WRITE_TYPE_NUM write
  // buffers of PLANES frames each.
  const TYPES: int := 3                    // WRITE_TYPE_NUM
  const PER_CORE_BUFFERS: int := PER_CORE * TYPES
  const FRAMES: int := CORES * PER_CORE_BUFFERS * PLANES
  const NONE: int := -1

  // The queues in one row: free_buff_queue, waiting_buff_queue,
  // urgent_queue[2], then bank_queue[2][NUM_PERBANK_QUEUE].
  const FREE: int := 0
  const WAITING: int := 1
  const URGENT: int := 2
  const BANK: int := 4
  const ROW: int := 20

  datatype Buff = Buff(lpn0: int, lpn1: int, data0: Data, data1: Data, partial: bool)

  type Queues = seq<seq<int>>

  ghost function Owners(q: Queues, x: int): nat {
    if q == [] then 0 else Times(q[0], x) + Owners(q[1..], x)
  }

  // Every buffer is in exactly one queue.
  ghost predicate Conserved(q: Queues) {
    forall x :: Owners(q, x) == if 0 <= x < NUM_BUFF then 1 else 0
  }

  // del_buff of the k-th buffer of queue i, then insert_buff into queue j.
  function Moved(q: Queues, i: int, k: int, j: int): Queues
    requires 0 <= i < |q| && 0 <= j < |q| && i != j && 0 <= k < |q[i]|
  {
    q[i := q[i][..k] + q[i][k + 1..]][j := q[j] + [q[i][k]]]
  }

  lemma {:induction false} OwnersUpdate(q: Queues, i: int, s: seq<int>, x: int)
    requires 0 <= i < |q|
    ensures Owners(q[i := s], x) + Times(q[i], x) == Owners(q, x) + Times(s, x)
  {
    if i > 0 {
      OwnersUpdate(q[1..], i - 1, s, x);
      assert q[i := s][1..] == q[1..][i - 1 := s];
    } else {
      assert q[i := s][1..] == q[1..];
    }
  }

  // Moving a buffer from one queue to another neither loses nor doubles one.
  lemma MovedConserved(q: Queues, i: int, k: int, j: int)
    requires 0 <= i < |q| && 0 <= j < |q| && i != j && 0 <= k < |q[i]|
    requires Conserved(q)
    ensures Conserved(Moved(q, i, k, j))
  {
    var s := q[i][..k] + q[i][k + 1..];
    forall x
      ensures Owners(Moved(q, i, k, j), x) == Owners(q, x)
    {
      assert q[i] == q[i][..k] + [q[i][k]] + q[i][k + 1..];
      OwnersUpdate(q, i, s, x);
      OwnersUpdate(q[i := s], j, q[j] + [q[i][k]], x);
    }
  }

  lemma {:induction false} OwnersTwo(q: Queues, i: int, j: int, x: int)
    requires 0 <= i < |q| && 0 <= j < |q| && i != j
    ensures Times(q[i], x) + Times(q[j], x) <= Owners(q, x)
  {
    if i == 0 {
      OwnersOne(q[1..], j - 1, x);
    } else if j == 0 {
      OwnersOne(q[1..], i - 1, x);
    } else {
      OwnersTwo(q[1..], i - 1, j - 1, x);
    }
  }

  lemma {:induction false} OwnersOne(q: Queues, i: int, x: int)
    requires 0 <= i < |q|
    ensures Times(q[i], x) <= Owners(q, x)
  {
    if i == 0 {
    } else {
      OwnersOne(q[1..], i - 1, x);
    }
  }

  lemma TwiceTimes(s: seq<int>, a: int, b: int)
    requires 0 <= a < b < |s| && s[a] == s[b]
    ensures Times(s, s[a]) >= 2
  {
    assert s == s[..a] + [s[a]] + s[a + 1..b] + [s[b]] + s[b + 1..];
  }

  // A buffer has one position.
  lemma OnePlace(q: Queues, i: int, k: int, j: int, m: int)
    requires Conserved(q) && 0 <= i < |q| && 0 <= k < |q[i]| && 0 <= j < |q| && 0 <= m < |q[j]|
    requires q[i][k] == q[j][m]
    ensures i == j && k == m && 0 <= q[i][k] < NUM_BUFF
  {
    var x := q[i][k];
    OwnersOne(q, i, x);
    if i != j {
      OwnersTwo(q, i, j, x);
    } else if k != m {
      TwiceTimes(q[i], if k < m then k else m, if k < m then m else k);
    }
  }

  // ------------------------------------------------ pages in the queues

  function PagesOf(b: Buff): nat {
    (if b.lpn0 != INVALID_LPN then 1 else 0) + (if b.lpn1 != INVALID_LPN then 1 else 0)
  }

  ghost function PagesIn(s: seq<int>, bufs: seq<Buff>): nat {
    if s == [] then 0
    else (if 0 <= s[0] < |bufs| then PagesOf(bufs[s[0]]) else 0) + PagesIn(s[1..], bufs)
  }

  ghost function PagesAll(q: Queues, bufs: seq<Buff>): nat {
    if q == [] then 0 else PagesIn(q[0], bufs) + PagesAll(q[1..], bufs)
  }

  lemma {:induction false} PagesAppend(s: seq<int>, x: int, bufs: seq<Buff>)
    requires 0 <= x < |bufs|
    ensures PagesIn(s + [x], bufs) == PagesIn(s, bufs) + PagesOf(bufs[x])
  {
    if s == [] {
      assert PagesIn([], bufs) == 0 && ([] + [x])[1..] == [];
    } else {
      PagesAppend(s[1..], x, bufs);
      assert (s + [x])[1..] == s[1..] + [x];
    }
  }

  lemma {:induction false} PagesSame(s: seq<int>, bufs: seq<Buff>, bufs': seq<Buff>)
    requires |bufs'| == |bufs| && forall i :: 0 <= i < |s| && 0 <= s[i] < |bufs| ==> bufs'[s[i]] == bufs[s[i]]
    ensures PagesIn(s, bufs') == PagesIn(s, bufs)
  {
    if s == [] {
    } else {
      PagesSame(s[1..], bufs, bufs');
    }
  }

  lemma {:induction false} PagesAllUpdate(q: Queues, i: int, s: seq<int>, bufs: seq<Buff>)
    requires 0 <= i < |q|
    ensures PagesAll(q[i := s], bufs) + PagesIn(q[i], bufs) == PagesAll(q, bufs) + PagesIn(s, bufs)
  {
    if i > 0 {
      PagesAllUpdate(q[1..], i - 1, s, bufs);
      assert q[i := s][1..] == q[1..][i - 1 := s];
    } else {
      assert q[i := s][1..] == q[1..];
    }
  }

  lemma {:induction false} PagesAllSame(q: Queues, bufs: seq<Buff>, bufs': seq<Buff>)
    requires |bufs'| == |bufs|
    requires forall k, i :: 0 <= k < |q| && 0 <= i < |q[k]| && 0 <= q[k][i] < |bufs| ==> bufs'[q[k][i]] == bufs[q[k][i]]
    ensures PagesAll(q, bufs') == PagesAll(q, bufs)
  {
    if q == [] {
    } else {
      PagesSame(q[0], bufs, bufs');
      forall k, i | 0 <= k < |q[1..]| && 0 <= i < |q[1..][k]| && 0 <= q[1..][k][i] < |bufs|
        ensures bufs'[q[1..][k][i]] == bufs[q[1..][k][i]]
      {
        assert q[1..][k] == q[k + 1];
      }
      PagesAllSame(q[1..], bufs, bufs');
    }
  }

  // No page queued means no buffer queued.
  lemma {:induction false} NoPages(q: Queues, bufs: seq<Buff>)
    requires forall k, i :: 0 <= k < |q| && 0 <= i < |q[k]| ==> 0 <= q[k][i] < |bufs| && PagesOf(bufs[q[k][i]]) > 0
    ensures PagesAll(q, bufs) == 0 <==> forall k :: 0 <= k < |q| ==> q[k] == []
  {
    if q == [] {
    } else {
      forall k, i | 0 <= k < |q[1..]| && 0 <= i < |q[1..][k]|
        ensures 0 <= q[1..][k][i] < |bufs| && PagesOf(bufs[q[1..][k][i]]) > 0
      {
        assert q[1..][k] == q[k + 1];
      }
      NoPages(q[1..], bufs);
      if q[0] != [] {
        assert PagesOf(bufs[q[0][0]]) > 0;
      }
      if forall k :: 0 <= k < |q[1..]| ==> q[1..][k] == [] {
        forall k | 0 < k < |q|
          ensures q[k] == []
        {
          assert q[1..][k - 1] == q[k];
        }
      }
    }
  }

  // ------------------------------------------------------- well-formedness

  predicate Blank(b: Buff) {
    b.lpn0 == INVALID_LPN && b.lpn1 == INVALID_LPN
  }

  predicate BankPage(lpn: int, k: int) {
    0 <= lpn < SPECIAL_LPN_START && lpn % PER_CORE == k % PER_CORE
  }

  // A buffer of bank queue k: the first half filled, the second too unless it
  // is the tail, which is then marked partial.
  predicate BankBuff(b: Buff, k: int, last: bool) {
    && BankPage(b.lpn0, k)
    && (b.partial <==> b.lpn1 == INVALID_LPN)
    && (b.lpn1 != INVALID_LPN ==> BankPage(b.lpn1, k))
    && (!last ==> !b.partial)
  }

  // It holds pages of data, not a command page.
  predicate IsData(b: Buff) {
    b.lpn0 < SPECIAL_LPN_START
  }

  predicate UrgentBuff(b: Buff) {
    b.lpn0 >= SPECIAL_LPN_START && b.lpn1 == INVALID_LPN
  }

  predicate InQueue(b: Buff, i: int, last: bool) {
    if i == FREE then Blank(b)
    else if i == WAITING then true
    else if i < BANK then UrgentBuff(b)
    else BankBuff(b, i - BANK, last)
  }

  ghost predicate Good(q: Queues, bufs: seq<Buff>) {
    && |q| == ROW && |bufs| == NUM_BUFF && Conserved(q)
    && (forall i, k :: 0 <= i < |q| && 0 <= k < |q[i]| ==>
          0 <= q[i][k] < NUM_BUFF && InQueue(bufs[q[i][k]], i, k == |q[i]| - 1))
  }

  lemma MovedGood(q: Queues, bufs: seq<Buff>, i: int, k: int, j: int, b: Buff)
    requires Good(q, bufs) && 0 <= i < ROW && 0 <= j < ROW && i != j && 0 <= k < |q[i]|
    requires k == 0 || i < BANK
    requires InQueue(b, j, true)
    requires j >= BANK && q[j] != [] ==> !bufs[q[j][|q[j]| - 1]].partial
    ensures Good(Moved(q, i, k, j), bufs[q[i][k] := b])
  {
    MovedConserved(q, i, k, j);
    var x := q[i][k];
    var q', bufs' := Moved(q, i, k, j), bufs[x := b];
    forall a, m | 0 <= a < |q'| && 0 <= m < |q'[a]|
      ensures 0 <= q'[a][m] < NUM_BUFF && InQueue(bufs'[q'[a][m]], a, m == |q'[a]| - 1)
    {
      if a == i {
        var o := if m < k then m else m + 1;
        assert q'[a][m] == q[i][o];
        if q[i][o] == x { OnePlace(q, i, k, i, o); }
      } else if a == j && m == |q[j]| {
      } else {
        assert q'[a][m] == q[a][m];
        if q[a][m] == x { OnePlace(q, i, k, a, m); }
      }
    }
  }

  // ------------------------------------------------------- the pool of buffers

  ghost function Sizes(q: Queues): nat {
    if q == [] then 0 else |q[0]| + Sizes(q[1..])
  }

  ghost function AllOf(q: Queues): multiset<int> {
    if q == [] then multiset{} else multiset(q[0]) + AllOf(q[1..])
  }

  lemma {:induction false} AllCounted(q: Queues)
    ensures |AllOf(q)| == Sizes(q)
    ensures forall x :: AllOf(q)[x] == Owners(q, x)
  {
    if q == [] {
    } else {
      AllCounted(q[1..]);
      forall x
        ensures multiset(q[0])[x] == Times(q[0], x)
      {
        TimesCount(q[0], x);
      }
    }
  }

  lemma {:induction false} TimesCount(s: seq<int>, x: int)
    ensures multiset(s)[x] == Times(s, x)
  {
    if s == [] {
    } else {
      assert s == [s[0]] + s[1..];
      TimesCount(s[1..], x);
    }
  }

  // All queues together hold the whole pool.
  lemma PoolSize(q: Queues)
    requires Conserved(q)
    ensures Sizes(q) == NUM_BUFF
  {
    var pool := seq(NUM_BUFF, i => i);
    AllCounted(q);
    forall x
      ensures AllOf(q)[x] == multiset(pool)[x]
    {
      if 0 <= x < NUM_BUFF { assert pool == pool[..x] + [x] + pool[x + 1..]; }
    }
    assert AllOf(q) == multiset(pool);
  }

  // There are at most as many buffers queued as pages in them.
  lemma {:induction false} SizesBound(q: Queues, bufs: seq<Buff>)
    requires forall k, i :: 0 <= k < |q| && 0 <= i < |q[k]| ==> 0 <= q[k][i] < |bufs| && PagesOf(bufs[q[k][i]]) > 0
    ensures Sizes(q) <= PagesAll(q, bufs)
  {
    if q == [] {
    } else {
      SizeBound(q[0], bufs);
      forall k, i | 0 <= k < |q[1..]| && 0 <= i < |q[1..][k]|
        ensures 0 <= q[1..][k][i] < |bufs| && PagesOf(bufs[q[1..][k][i]]) > 0
      {
        assert q[1..][k] == q[k + 1];
      }
      SizesBound(q[1..], bufs);
    }
  }

  lemma {:induction false} SizeBound(s: seq<int>, bufs: seq<Buff>)
    requires forall i :: 0 <= i < |s| ==> 0 <= s[i] < |bufs| && PagesOf(bufs[s[i]]) > 0
    ensures |s| <= PagesIn(s, bufs)
  {
    if s == [] {
    } else {
      SizeBound(s[1..], bufs);
    }
  }

  // Every buffer that is not free waits, or holds a page that is queued.
  lemma PoolLeft(q: Queues, bufs: seq<Buff>)
    requires Good(q, bufs)
    ensures |q[FREE]| + |q[WAITING]| + |q[URGENT]| + |q[URGENT + 1]| + PagesAll(q[BANK..], bufs) >= NUM_BUFF
  {
    PoolSize(q);
    var rest := q[BANK..];
    forall k, i | 0 <= k < |rest| && 0 <= i < |rest[k]|
      ensures 0 <= rest[k][i] < |bufs| && PagesOf(bufs[rest[k][i]]) > 0
    {
      assert InQueue(bufs[q[k + BANK][i]], k + BANK, i == |q[k + BANK]| - 1);
    }
    SizesBound(rest, bufs);
    assert q[1..][1..] == q[2..] && q[2..][1..] == q[3..] && q[3..][1..] == rest;
    assert Sizes(q) == |q[0]| + Sizes(q[1..]) && Sizes(q[1..]) == |q[1]| + Sizes(q[2..]);
    assert Sizes(q[2..]) == |q[2]| + Sizes(q[3..]) && Sizes(q[3..]) == |q[3]| + Sizes(rest);
  }

  // The buffers that wait are the frames of the write buffers, each of one;
  // `x` has not been given to one yet.
  ghost predicate FramedBut(waiting: seq<int>, frames: seq<int>, x: int) {
    && |frames| == FRAMES
    && (forall f :: 0 <= f < |frames| && frames[f] != NONE ==> frames[f] in waiting && frames[f] != x)
    && (forall f, g :: 0 <= f < g < |frames| && frames[f] != NONE ==> frames[f] != frames[g])
    && (forall y :: y in waiting ==> y == x || y in frames)
  }

  ghost predicate Framed(waiting: seq<int>, frames: seq<int>) {
    FramedBut(waiting, frames, NONE)
  }

  // A frame is filled, or emptied and its buffer given back.
  lemma FrameFilled(waiting: seq<int>, frames: seq<int>, f: int, x: int)
    requires FramedBut(waiting, frames, x) && 0 <= f < |frames| && frames[f] == NONE && x in waiting && NONE !in waiting
    ensures Framed(waiting, frames[f := x])
  {
    forall y | y in waiting
      ensures y in frames[f := x]
    {
      assert frames[f := x][f] == x;
      if y != x {
        var g :| 0 <= g < |frames| && frames[g] == y;
        if g != f { assert frames[f := x][g] == y; }
      }
    }
  }

  lemma FrameEmptied(waiting: seq<int>, waiting': seq<int>, frames: seq<int>, f: int, x: int)
    requires FramedBut(waiting, frames, x) && 0 <= f < |frames| && frames[f] != NONE
    requires forall y :: y in waiting' <==> y in waiting && y != frames[f]
    ensures FramedBut(waiting', frames[f := NONE], x)
  {
    var frames' := frames[f := NONE];
    forall y | y in waiting'
      ensures y == x || y in frames'
    {
      if y != x {
        var g :| 0 <= g < |frames| && frames[g] == y;
        assert frames'[g] == y;
      }
    }
  }

  lemma {:induction false} DistinctWithin(s: seq<int>, t: seq<int>)
    requires NoDup(s) && forall y :: y in s ==> y in t
    ensures |s| <= |t|
  {
    MembersSize(s);
    AtMost(t);
    SubsetSize(Members(s), Members(t));
  }

  lemma {:induction false} AtMost(s: seq<int>)
    ensures |Members(s)| <= |s|
  {
    if s == [] {
      assert Members(s) == {};
    } else {
      var rest, x := s[..|s| - 1], s[|s| - 1];
      AtMost(rest);
      assert Members(s) == Members(rest) + {x};
    }
  }

  // No more buffers wait than there are frames.
  lemma FewWaiting(q: Queues, frames: seq<int>)
    requires Conserved(q) && |q| == ROW && NONE !in q[WAITING] && Framed(q[WAITING], frames)
    ensures |q[WAITING]| <= FRAMES
  {
    forall i, j | 0 <= i < j < |q[WAITING]|
      ensures q[WAITING][i] != q[WAITING][j]
    {
      if q[WAITING][i] == q[WAITING][j] { OnePlace(q, WAITING, i, WAITING, j); }
    }
    DistinctWithin(q[WAITING], frames);
  }

  // ------------------------------------------------------- order of writes

  // The data written to page l, in the order of the buffers.
  function Writes(s: seq<Buff>, l: int): seq<Data> {
    if s == [] then [] else OfBuff(s[0], l) + Writes(s[1..], l)
  }

  function OfBuff(b: Buff, l: int): seq<Data> {
    (if b.lpn0 == l then [b.data0] else []) + (if b.lpn1 == l then [b.data1] else [])
  }

  function Held(s: seq<int>, bufs: seq<Buff>): seq<Buff>
    requires forall k :: 0 <= k < |s| ==> 0 <= s[k] < |bufs|
  {
    seq(|s|, k requires 0 <= k < |s| => bufs[s[k]])
  }

  // The queue that holds a page of a core until it is drained.
  function QueueOf(core: int, l: int): int
    requires 0 <= core < CORES
    ensures URGENT <= QueueOf(core, l) < ROW
  {
    if l >= SPECIAL_LPN_START then URGENT + core else BANK + core * PER_CORE + l % PER_CORE
  }

  // All writes to page l of a core since the start: those its translation
  // layer has been called with, then those still queued.
  ghost function History(taken: seq<seq<Buff>>, q: Queues, bufs: seq<Buff>, core: int, l: int): seq<Data>
    requires 0 <= core < CORES && |taken| == CORES && Good(q, bufs)
  {
    Writes(taken[core], l) + Writes(Held(q[QueueOf(core, l)], bufs), l)
  }

  lemma {:induction false} WritesConcat(s: seq<Buff>, t: seq<Buff>, l: int)
    ensures Writes(s + t, l) == Writes(s, l) + Writes(t, l)
  {
    if s == [] {
      assert s + t == t;
    } else {
      WritesConcat(s[1..], t, l);
      WritesFirst(s, t, l);
    }
  }

  lemma WritesFirst(s: seq<Buff>, t: seq<Buff>, l: int)
    requires s != []
    ensures Writes(s + t, l) == OfBuff(s[0], l) + Writes(s[1..] + t, l)
  {
    hide OfBuff;
    assert (s + t)[1..] == s[1..] + t;
  }

  lemma WritesOne(b: Buff, l: int)
    ensures Writes([b], l) == OfBuff(b, l)
  {
  }

  lemma {:induction false} WritesNone(s: seq<Buff>, l: int)
    requires forall k :: 0 <= k < |s| ==> OfBuff(s[k], l) == []
    ensures Writes(s, l) == []
  {
    if s == [] {
    } else {
      WritesNone(s[1..], l);
    }
  }

  // Handing the head of its queue to a core moves no write past another: a
  // head holding page l can only come from the queue of page l.
  lemma HandedOver(taken: seq<seq<Buff>>, q: Queues, bufs: seq<Buff>, i: int, core: int, l: int, j: int, b: Buff)
    requires Good(q, bufs) && |taken| == CORES && 0 <= core < CORES && l != INVALID_LPN
    requires URGENT <= i < ROW && q[i] != []
    requires (i == URGENT + core || BANK + core * PER_CORE <= i < BANK + core * PER_CORE + PER_CORE)
    requires (j == FREE && Blank(b)) || (j == WAITING && b == bufs[q[i][0]])
    ensures var q', bufs', taken' := Moved(q, i, 0, j), bufs[q[i][0] := b],
      taken[core := taken[core] + [bufs[q[i][0]]]];
            && Good(q', bufs')
            && (forall c :: 0 <= c < CORES ==> History(taken', q', bufs', c, l) == History(taken, q, bufs, c, l))
  {
    MovedGood(q, bufs, i, 0, j, b);
    var head := bufs[q[i][0]];
    var q', bufs', taken' := Moved(q, i, 0, j), bufs[q[i][0] := b], taken[core := taken[core] + [head]];
    forall c | 0 <= c < CORES
      ensures History(taken', q', bufs', c, l) == History(taken, q, bufs, c, l)
    {
      var a := QueueOf(c, l);
      if a == i {
        assert c == core;
        HeadHeld(q, bufs, i, j, b);
        WritesConcat(taken[c], [head], l);
        WritesConcat([head], Held(q'[i], bufs'), l);
      } else {
        HeldSame(q, bufs, i, j, b, a);
        if c == core {
          assert InQueue(head, i, 0 == |q[i]| - 1);
          WritesConcat(taken[c], [head], l);
          WritesOne(head, l);
          assert OfBuff(head, l) == [];
        }
      }
    }
  }

  lemma HeadHeld(q: Queues, bufs: seq<Buff>, i: int, j: int, b: Buff)
    requires Good(q, bufs) && URGENT <= i < ROW && q[i] != [] && 0 <= j < URGENT
    requires Good(Moved(q, i, 0, j), bufs[q[i][0] := b])
    ensures Held(q[i], bufs) == [bufs[q[i][0]]] + Held(Moved(q, i, 0, j)[i], bufs[q[i][0] := b])
  {
    forall k | 0 < k < |q[i]|
      ensures q[i][k] != q[i][0]
    {
      if q[i][k] == q[i][0] { OnePlace(q, i, k, i, 0); }
    }
  }

  lemma HeldSame(q: Queues, bufs: seq<Buff>, i: int, j: int, b: Buff, a: int)
    requires Good(q, bufs) && 0 <= i < ROW && q[i] != [] && 0 <= j < ROW && i != j && 0 <= a < ROW && a != i && a != j
    requires Good(Moved(q, i, 0, j), bufs[q[i][0] := b])
    ensures Held(Moved(q, i, 0, j)[a], bufs[q[i][0] := b]) == Held(q[a], bufs)
  {
    forall k | 0 <= k < |q[a]|
      ensures q[a][k] != q[i][0]
    {
      if q[a][k] == q[i][0] { OnePlace(q, a, k, i, 0); }
    }
  }

  lemma NotWaiting(q: Queues, i: int)
    requires Conserved(q) && |q| == ROW && URGENT <= i < ROW && q[i] != []
    ensures q[i][0] !in q[WAITING]
  {
    if q[i][0] in q[WAITING] {
      var k :| 0 <= k < |q[WAITING]| && q[WAITING][k] == q[i][0];
      OnePlace(q, i, 0, WAITING, k);
    }
  }

  lemma RemovedOne(q: Queues, k: int)
    requires Conserved(q) && |q| == ROW && 0 <= k < |q[WAITING]|
    ensures forall y :: y in Moved(q, WAITING, k, FREE)[WAITING] <==> y in q[WAITING] && y != q[WAITING][k]
  {
    var w := q[WAITING];
    forall m | 0 <= m < |w| && m != k
      ensures w[m] != w[k]
    {
      if w[m] == w[k] { OnePlace(q, WAITING, m, WAITING, k); }
    }
    assert w == w[..k] + [w[k]] + w[k + 1..];
  }

  // Nothing happened to the pages still queued.
  ghost predicate Kept(q: Queues, bufs: seq<Buff>, q': Queues, bufs': seq<Buff>)
    requires Good(q, bufs) && Good(q', bufs')
  {
    forall j :: URGENT <= j < ROW ==> q'[j] == q[j] && Held(q'[j], bufs') == Held(q[j], bufs)
  }

  lemma MovedKept(q: Queues, bufs: seq<Buff>, k: int)
    requires Good(q, bufs) && 0 <= k < |q[WAITING]|
    ensures var q', bufs' := Moved(q, WAITING, k, FREE), bufs[q[WAITING][k] := Cleared(bufs[q[WAITING][k]])];
            Good(q', bufs') && Kept(q, bufs, q', bufs') && PagesAll(q'[BANK..], bufs') == PagesAll(q[BANK..], bufs)
  {
    var x := q[WAITING][k];
    var b := Cleared(bufs[x]);
    MovedGood(q, bufs, WAITING, k, FREE, b);
    MovedPages(q, bufs, WAITING, k, FREE, b);
    forall j | URGENT <= j < ROW
      ensures Held(q[j], bufs[x := b]) == Held(q[j], bufs)
    {
      forall m | 0 <= m < |q[j]|
        ensures q[j][m] != x
      {
        if q[j][m] == x { OnePlace(q, j, m, WAITING, k); }
      }
    }
  }

  // HIL_buff_init: the partial mark stays as it was.
  function Cleared(b: Buff): Buff {
    b.(lpn0 := INVALID_LPN, lpn1 := INVALID_LPN, data0 := 0, data1 := 0)
  }

  // What a move does to the number of pages in the bank queues.
  lemma MovedPages(q: Queues, bufs: seq<Buff>, i: int, k: int, j: int, b: Buff)
    requires Good(q, bufs) && 0 <= i < ROW && 0 <= j < ROW && i != j && 0 <= k < |q[i]| && (k == 0 || i < BANK)
    ensures PagesAll(Moved(q, i, k, j)[BANK..], bufs[q[i][k] := b]) + (if i >= BANK then PagesOf(bufs[q[i][k]]) else 0)
         == PagesAll(q[BANK..], bufs) + (if j >= BANK then PagesOf(b) else 0)
  {
    var x, r := q[i][k], q[i := q[i][..k] + q[i][k + 1..]];
    var bufs' := bufs[x := b];
    TakenPages(q, bufs, i, k, b);
    if j >= BANK {
      assert Moved(q, i, k, j)[BANK..] == r[BANK..][j - BANK := q[j] + [x]];
      PagesAllUpdate(r[BANK..], j - BANK, q[j] + [x], bufs');
      PagesAppend(q[j], x, bufs');
    } else {
      assert Moved(q, i, k, j)[BANK..] == r[BANK..];
    }
  }

  // What remains once a buffer is taken from its queue.
  lemma TakenPages(q: Queues, bufs: seq<Buff>, i: int, k: int, b: Buff)
    requires Good(q, bufs) && 0 <= i < ROW && 0 <= k < |q[i]| && (k == 0 || i < BANK)
    ensures var r := q[i := q[i][..k] + q[i][k + 1..]];
      PagesAll(r[BANK..], bufs[q[i][k] := b]) + (if i >= BANK then PagesOf(bufs[q[i][k]]) else 0)
        == PagesAll(q[BANK..], bufs)
  {
    var x, s := q[i][k], q[i][..k] + q[i][k + 1..];
    var rest := q[i := s][BANK..];
    TakenElsewhere(q, i, k, BANK);
    PagesAllSame(rest, bufs, bufs[x := b]);
    if i >= BANK {
      assert rest == q[BANK..][i - BANK := s] && s == q[i][1..];
      PagesAllUpdate(q[BANK..], i - BANK, s, bufs);
    } else {
      assert rest == q[BANK..];
    }
  }

  lemma TakenElsewhere(q: Queues, i: int, k: int, from: int)
    requires Conserved(q) && 0 <= i < |q| && 0 <= k < |q[i]| && 0 <= from <= |q|
    ensures var rest := q[i := q[i][..k] + q[i][k + 1..]][from..];
      forall c, m :: 0 <= c < |rest| && 0 <= m < |rest[c]| ==> rest[c][m] != q[i][k]
  {
    var rest := q[i := q[i][..k] + q[i][k + 1..]][from..];
    forall c, m | 0 <= c < |rest| && 0 <= m < |rest[c]|
      ensures rest[c][m] != q[i][k]
    {
      if rest[c][m] == q[i][k] {
        if c + from == i {
          OnePlace(q, i, k, i, if m < k then m else m + 1);
        } else {
          OnePlace(q, i, k, c + from, m);
        }
      }
    }
  }

  // A new page at the tail of its queue comes after all earlier writes to it.
  lemma Enqueued(taken: seq<seq<Buff>>, q: Queues, bufs: seq<Buff>, core: int, l: int, b: Buff, c: int, l': int)
    requires Good(q, bufs) && |taken| == CORES && 0 <= core < CORES && 0 <= c < CORES && l' != INVALID_LPN
    requires q[FREE] != [] && b.lpn0 == l && b.lpn1 == INVALID_LPN
    requires Good(Moved(q, FREE, 0, QueueOf(core, l)), bufs[q[FREE][0] := b])
    ensures History(taken, Moved(q, FREE, 0, QueueOf(core, l)), bufs[q[FREE][0] := b], c, l')
         == History(taken, q, bufs, c, l') + if c == core && l' == l then [b.data0] else []
  {
    var j, a := QueueOf(core, l), QueueOf(c, l');
    var q', bufs' := Moved(q, FREE, 0, j), bufs[q[FREE][0] := b];
    if a == j {
      assert c == core;
      forall m | 0 <= m < |q[j]|
        ensures q[j][m] != q[FREE][0]
      {
        if q[j][m] == q[FREE][0] { OnePlace(q, j, m, FREE, 0); }
      }
      assert Held(q'[j], bufs') == Held(q[j], bufs) + [b];
      WritesConcat(Held(q[j], bufs), [b], l');
      WritesOne(b, l');
    } else {
      HeldSame(q, bufs, FREE, j, b, a);
    }
  }

  predicate CanPair(q: Queues, bufs: seq<Buff>, j: int)
    requires |q| == ROW && 0 <= j < ROW
    requires forall k :: 0 <= k < |q[j]| ==> 0 <= q[j][k] < |bufs|
  {
    q[j] != [] && bufs[q[j][|q[j]| - 1]].partial
  }

  function Paired(b: Buff, l: int, d: Data): Buff {
    b.(lpn1 := l, data1 := d, partial := false)
  }

  // The buffers once the partial tail of queue j has taken page l.
  function WithPair(q: Queues, bufs: seq<Buff>, j: int, l: int, d: Data): seq<Buff>
    requires |q| == ROW && 0 <= j < ROW && q[j] != [] && 0 <= q[j][|q[j]| - 1] < |bufs|
  {
    var x := q[j][|q[j]| - 1];
    bufs[x := Paired(bufs[x], l, d)]
  }

  lemma PairedGood(q: Queues, bufs: seq<Buff>, j: int, l: int, d: Data)
    requires Good(q, bufs) && BANK <= j < ROW && CanPair(q, bufs, j) && BankPage(l, j - BANK)
    ensures Good(q, WithPair(q, bufs, j, l, d))
    ensures PagesAll(q[BANK..], WithPair(q, bufs, j, l, d)) == PagesAll(q[BANK..], bufs) + 1
  {
    var n := |q[j]| - 1;
    var x := q[j][n];
    var bufs' := bufs[x := Paired(bufs[x], l, d)];
    forall a, m | 0 <= a < ROW && 0 <= m < |q[a]| && q[a][m] == x
      ensures a == j && m == n
    {
      OnePlace(q, a, m, j, n);
    }
    var most := q[BANK..][j - BANK := q[j][..n]];
    forall k, i | 0 <= k < |most| && 0 <= i < |most[k]| && 0 <= most[k][i] < |bufs|
      ensures bufs'[most[k][i]] == bufs[most[k][i]]
    {
      assert most[k][i] == q[k + BANK][i];
    }
    PagesAllSame(most, bufs, bufs');
    assert q[j] == q[j][..n] + [x] && most[j - BANK := q[j]] == q[BANK..];
    PagesAllUpdate(most, j - BANK, q[j], bufs);
    PagesAllUpdate(most, j - BANK, q[j], bufs');
    PagesAppend(q[j][..n], x, bufs);
    PagesAppend(q[j][..n], x, bufs');
  }

  lemma PairedHistory(taken: seq<seq<Buff>>, q: Queues, bufs: seq<Buff>, core: int, l: int, d: Data, c: int, l': int)
    requires Good(q, bufs) && |taken| == CORES && 0 <= core < CORES && 0 <= c < CORES && l' != INVALID_LPN
    requires 0 <= l < SPECIAL_LPN_START && CanPair(q, bufs, QueueOf(core, l))
    requires Good(q, WithPair(q, bufs, QueueOf(core, l), l, d))
    ensures History(taken, q, WithPair(q, bufs, QueueOf(core, l), l, d), c, l')
         == History(taken, q, bufs, c, l') + if c == core && l' == l then [d] else []
  {
    var j, a := QueueOf(core, l), QueueOf(c, l');
    var n := |q[j]| - 1;
    var x := q[j][n];
    var b := Paired(bufs[x], l, d);
    var bufs' := bufs[x := b];
    forall i, m | 0 <= i < ROW && 0 <= m < |q[i]| && q[i][m] == x
      ensures i == j && m == n
    {
      OnePlace(q, i, m, j, n);
    }
    if a == j {
      assert c == core;
      var most := Held(q[j][..n], bufs);
      assert Held(q[j], bufs) == most + [bufs[x]];
      assert Held(q[j], bufs') == most + [b];
      WritesConcat(most, [bufs[x]], l');
      WritesConcat(most, [b], l');
      WritesOne(bufs[x], l');
      WritesOne(b, l');
      assert InQueue(bufs[x], j, true);
    } else {
      assert Held(q[a], bufs') == Held(q[a], bufs);
    }
  }

  // The histories of all pages are the same.
  ghost predicate SameHistory(taken: seq<seq<Buff>>, q: Queues, bufs: seq<Buff>, taken': seq<seq<Buff>>, q': Queues,
                              bufs': seq<Buff>)
    requires Good(q, bufs) && Good(q', bufs') && |taken| == |taken'| == CORES
  {
    forall c, l :: 0 <= c < CORES && l != INVALID_LPN ==>
      History(taken', q', bufs', c, l) == History(taken, q, bufs, c, l)
  }

  // Page l of a core has one more write, and nothing else has happened.
  ghost predicate OneMore(taken: seq<seq<Buff>>, q: Queues, bufs: seq<Buff>, q': Queues, bufs': seq<Buff>,
                          core: int, l: int, d: Data)
    requires Good(q, bufs) && Good(q', bufs') && |taken| == CORES
  {
    forall c, l' :: 0 <= c < CORES && l' != INVALID_LPN ==>
      History(taken, q', bufs', c, l') == History(taken, q, bufs, c, l') + if c == core && l' == l then [d] else []
  }

  lemma KeptHistory(taken: seq<seq<Buff>>, q: Queues, bufs: seq<Buff>, q': Queues, bufs': seq<Buff>)
    requires Good(q, bufs) && Good(q', bufs') && Kept(q, bufs, q', bufs') && |taken| == CORES
    ensures SameHistory(taken, q, bufs, taken, q', bufs')
  {
  }

  lemma HandedHistory(taken: seq<seq<Buff>>, q: Queues, bufs: seq<Buff>, i: int, core: int, j: int, b: Buff)
    requires Good(q, bufs) && |taken| == CORES && 0 <= core < CORES
    requires URGENT <= i < ROW && q[i] != []
    requires (i == URGENT + core || BANK + core * PER_CORE <= i < BANK + core * PER_CORE + PER_CORE)
    requires (j == FREE && Blank(b)) || (j == WAITING && b == bufs[q[i][0]])
    ensures var q', bufs', taken' := Moved(q, i, 0, j), bufs[q[i][0] := b],
      taken[core := taken[core] + [bufs[q[i][0]]]];
            Good(q', bufs') && SameHistory(taken, q, bufs, taken', q', bufs')
  {
    MovedGood(q, bufs, i, 0, j, b);
    var q', bufs', taken' := Moved(q, i, 0, j), bufs[q[i][0] := b], taken[core := taken[core] + [bufs[q[i][0]]]];
    forall c, l | 0 <= c < CORES && l != INVALID_LPN
      ensures History(taken', q', bufs', c, l) == History(taken, q, bufs, c, l)
    {
      HandedOver(taken, q, bufs, i, core, l, j, b);
    }
  }

  lemma PoolConserved(q: Queues)
    requires |q| == ROW && q[0] == seq(NUM_BUFF, i => i) && forall i :: 0 < i < ROW ==> q[i] == []
    ensures Conserved(q)
  {
    forall x
      ensures Owners(q, x) == if 0 <= x < NUM_BUFF then 1 else 0
    {
      OwnersEmpty(q[1..], x);
      var p := q[0];
      if 0 <= x < NUM_BUFF {
        assert p == p[..x] + [p[x]] + p[x + 1..];
      }
    }
  }

  lemma {:induction false} OwnersEmpty(q: Queues, x: int)
    requires forall i :: 0 <= i < |q| ==> q[i] == []
    ensures Owners(q, x) == 0
  {
    if q == [] {
    } else {
      OwnersEmpty(q[1..], x);
    }
  }

  ghost predicate NoBank(q: Queues, core: int)
    requires |q| == ROW && 0 <= core < CORES
  {
    forall j :: BANK + core * PER_CORE <= j < BANK + core * PER_CORE + PER_CORE ==> q[j] == []
  }

  // The bank queue looked at in turn k of a round that starts at rr.
  function Turn(core: int, rr: nat, k: int): int
    requires 0 <= core < CORES && 0 <= k
    ensures BANK + core * PER_CORE <= Turn(core, rr, k) < BANK + core * PER_CORE + PER_CORE
  {
    BANK + core * PER_CORE + (rr + k) % PER_CORE
  }

  // A round looks at every bank queue of the core.
  lemma TurnOf(core: int, rr: nat, j: int) returns (k: int)
    requires 0 <= core < CORES && BANK + core * PER_CORE <= j < BANK + core * PER_CORE + PER_CORE
    ensures 0 <= k < PER_CORE && Turn(core, rr, k) == j
  {
    k := (j - BANK - core * PER_CORE - rr) % PER_CORE;
  }

  // The round starts at bank queue `rr % PER_CORE` and each turn goes on to the
  // next one, from the last one back to the first.
  lemma TurnsRound(core: int, rr: nat, k: nat)
    requires 0 <= core < CORES
    ensures Turn(core, rr, 0) == BANK + core * PER_CORE + rr % PER_CORE
    ensures Turn(core, rr, k + 1) ==
      if Turn(core, rr, k) == BANK + core * PER_CORE + PER_CORE - 1 then BANK + core * PER_CORE
      else Turn(core, rr, k) + 1
  {
  }

  // ------------------------------------------------------- the order of handing over

  // What the queues hold; free and waiting buffers hold nothing of interest.
  ghost function Rows(q: Queues, bufs: seq<Buff>): (r: seq<seq<Buff>>)
    requires Good(q, bufs)
    ensures |r| == ROW
  {
    seq(ROW, j requires 0 <= j < ROW => if j < URGENT then [] else Held(q[j], bufs))
  }

  // The bank queues of a core from turn k of the round on, one after the other.
  ghost function BanksFrom(r: seq<seq<Buff>>, core: int, rr: nat, k: nat): seq<Buff>
    requires |r| == ROW && 0 <= core < CORES && k <= PER_CORE
    decreases PER_CORE - k
  {
    if k == PER_CORE then []
    else r[BANK + core * PER_CORE + (rr + k) % PER_CORE] + BanksFrom(r, core, rr, k + 1)
  }

  // What a core is still to be called with, in this order: its command pages,
  // then its bank queues, each to its end before the next one.
  ghost function Due(r: seq<seq<Buff>>, core: int, rr: nat): seq<Buff>
    requires |r| == ROW && 0 <= core < CORES
  {
    r[URGENT + core] + BanksFrom(r, core, rr, 0)
  }

  // The core has been called with the head of queue i.
  ghost predicate Popped(taken: seq<seq<Buff>>, r: seq<seq<Buff>>, taken': seq<seq<Buff>>, r': seq<seq<Buff>>,
                         core: int, i: int)
    requires |taken| == CORES && |r| == ROW
  {
    && 0 <= core < CORES && URGENT <= i < ROW && r[i] != []
    && taken' == taken[core := taken[core] + [r[i][0]]] && r' == r[i := r[i][1..]]
  }

  ghost predicate FirstBank(r: seq<seq<Buff>>, core: int, rr: nat, i: int)
    requires |r| == ROW && 0 <= core < CORES
  {
    exists k :: 0 <= k < PER_CORE && i == Turn(core, rr, k) && r[i] != [] &&
                forall j :: 0 <= j < k ==> r[Turn(core, rr, j)] == []
  }

  // Page l has joined the tail of queue j: in the second half of a partial
  // buffer of a bank queue, otherwise in a buffer of its own.
  ghost predicate Added(r: seq<seq<Buff>>, r': seq<seq<Buff>>, j: int, l: int, d: Data)
    requires |r| == ROW && |r'| == ROW && URGENT <= j < ROW
  {
    var n := |r[j]|;
    if j >= BANK && n > 0 && r[j][n - 1].partial then
      r' == r[j := r[j][n - 1 := r[j][n - 1].(lpn1 := l, data1 := d, partial := false)]]
    else
      && |r'[j]| == n + 1 && r' == r[j := r[j] + [r'[j][n]]]
      && r'[j][n].lpn0 == l && r'[j][n].data0 == d && r'[j][n].lpn1 == INVALID_LPN
      && (j >= BANK ==> r'[j][n].partial)
  }

  lemma BanksNext(r: seq<seq<Buff>>, core: int, rr: nat, k: nat)
    requires |r| == ROW && 0 <= core < CORES && k < PER_CORE
    ensures BanksFrom(r, core, rr, k) == r[Turn(core, rr, k)] + BanksFrom(r, core, rr, k + 1)
  {
  }

  lemma {:induction false} BanksSame(r: seq<seq<Buff>>, r': seq<seq<Buff>>, core: int, rr: nat, k: nat)
    requires |r| == ROW && |r'| == ROW && 0 <= core < CORES && k <= PER_CORE
    requires forall j :: k <= j < PER_CORE ==> r'[Turn(core, rr, j)] == r[Turn(core, rr, j)]
    ensures BanksFrom(r', core, rr, k) == BanksFrom(r, core, rr, k)
    decreases PER_CORE - k
  {
    if k < PER_CORE {
      BanksNext(r, core, rr, k);
      BanksNext(r', core, rr, k);
      BanksSame(r, r', core, rr, k + 1);
    }
  }

  // Empty queues are passed over.
  lemma {:induction false} BanksPassed(r: seq<seq<Buff>>, core: int, rr: nat, k: nat)
    requires |r| == ROW && 0 <= core < CORES && k <= PER_CORE
    requires forall j :: 0 <= j < k ==> r[Turn(core, rr, j)] == []
    ensures BanksFrom(r, core, rr, 0) == BanksFrom(r, core, rr, k)
  {
    hide Turn, BanksFrom;
    if k > 0 {
      BanksPassed(r, core, rr, k - 1);
      BanksNext(r, core, rr, k - 1);
    }
  }

  lemma TurnsApart(core: int, rr: nat, j: int, k: int)
    requires 0 <= core < CORES && 0 <= j < k < PER_CORE
    ensures Turn(core, rr, j) != Turn(core, rr, k)
  {
  }

  // Taking the head of the first queue in line leaves the order as it was.
  lemma PoppedBanks(r: seq<seq<Buff>>, core: int, rr: nat, i: int)
    requires |r| == ROW && 0 <= core < CORES && FirstBank(r, core, rr, i)
    ensures URGENT <= i < ROW && r[i] != []
    ensures BanksFrom(r, core, rr, 0) == [r[i][0]] + BanksFrom(r[i := r[i][1..]], core, rr, 0)
  {
    hide Turn, BanksFrom;
    var k :| 0 <= k < PER_CORE && i == Turn(core, rr, k) && forall j :: 0 <= j < k ==> r[Turn(core, rr, j)] == [];
    var r' := r[i := r[i][1..]];
    forall j | 0 <= j < PER_CORE && j != k
      ensures r'[Turn(core, rr, j)] == r[Turn(core, rr, j)]
    {
      TurnsApart(core, rr, if j < k then j else k, if j < k then k else j);
    }
    BanksPassed(r, core, rr, k);
    BanksPassed(r', core, rr, k);
    BanksSame(r, r', core, rr, k + 1);
    BanksNext(r, core, rr, k);
    BanksNext(r', core, rr, k);
    assert r[i] == [r[i][0]] + r'[i];
  }

  // Each step of a drain keeps what a core has been and will be called with.
  lemma PoppedDue(taken: seq<seq<Buff>>, r: seq<seq<Buff>>, taken': seq<seq<Buff>>, r': seq<seq<Buff>>,
                  core: int, i: int, rr: nat, c: int)
    requires |taken| == CORES && |r| == ROW && Popped(taken, r, taken', r', core, i) && 0 <= c < CORES
    requires i == URGENT + core || (r[URGENT + core] == [] && FirstBank(r, core, rr, i))
    ensures taken'[c] + Due(r', c, rr) == taken[c] + Due(r, c, rr)
  {
    hide Turn, BanksFrom, FirstBank;
    if c == core && i != URGENT + core {
      PoppedBanks(r, core, rr, i);
      Joined(taken[c], r[i][0], [], BanksFrom(r', c, rr, 0));
    } else {
      FirstInCore(r, core, rr, i);
      BanksSame(r, r', c, rr, 0);
      if c == core { Joined(taken[c], r[i][0], r'[i], BanksFrom(r, c, rr, 0)); }
    }
  }

  lemma FirstInCore(r: seq<seq<Buff>>, core: int, rr: nat, i: int)
    requires |r| == ROW && 0 <= core < CORES
    ensures FirstBank(r, core, rr, i) ==> BANK + core * PER_CORE <= i < BANK + core * PER_CORE + PER_CORE
  {
  }

  lemma Joined(s: seq<Buff>, x: Buff, t: seq<Buff>, u: seq<Buff>)
    ensures (s + [x]) + (t + u) == s + (([x] + t) + u)
  {
  }

  lemma PoppedUrgent(taken: seq<seq<Buff>>, r: seq<seq<Buff>>, taken': seq<seq<Buff>>, r': seq<seq<Buff>>,
                     core: int, c: int)
    requires |taken| == CORES && |r| == ROW && 0 <= core < CORES && 0 <= c < CORES
    requires Popped(taken, r, taken', r', core, URGENT + core)
    ensures taken'[c] + r'[URGENT + c] == taken[c] + r[URGENT + c]
  {
    if c == core { assert r[URGENT + core] == [r[URGENT + core][0]] + r'[URGENT + core]; }
  }

  lemma NothingDue(r: seq<seq<Buff>>, core: int, rr: nat)
    requires |r| == ROW && 0 <= core < CORES && forall j :: URGENT <= j < ROW ==> r[j] == []
    ensures Due(r, core, rr) == []
  {
    BanksPassed(r, core, rr, PER_CORE);
  }

  // The bank queues hold pages of data only.
  lemma {:induction false} BanksAreData(q: Queues, bufs: seq<Buff>, core: int, rr: nat, k: nat)
    requires Good(q, bufs) && 0 <= core < CORES && k <= PER_CORE
    ensures forall b :: b in BanksFrom(Rows(q, bufs), core, rr, k) ==> IsData(b)
    decreases PER_CORE - k
  {
    hide Conserved;
    if k < PER_CORE {
      BanksAreData(q, bufs, core, rr, k + 1);
      var i := BANK + core * PER_CORE + (rr + k) % PER_CORE;
      forall m | 0 <= m < |q[i]|
        ensures IsData(Rows(q, bufs)[i][m])
      {
        assert InQueue(bufs[q[i][m]], i, m == |q[i]| - 1);
      }
    }
  }

  lemma KeptRows(q: Queues, bufs: seq<Buff>, q': Queues, bufs': seq<Buff>)
    requires Good(q, bufs) && Good(q', bufs') && Kept(q, bufs, q', bufs')
    ensures Rows(q', bufs') == Rows(q, bufs)
  {
    forall j | 0 <= j < ROW
      ensures Rows(q', bufs')[j] == Rows(q, bufs)[j]
    {
    }
  }

  // The head of queue i leaves for the pool or waits.
  lemma MovedRows(q: Queues, bufs: seq<Buff>, i: int, j: int, b: Buff)
    requires Good(q, bufs) && URGENT <= i < ROW && q[i] != [] && 0 <= j < URGENT
    requires Good(Moved(q, i, 0, j), bufs[q[i][0] := b])
    ensures var r := Rows(q, bufs);
      r[i] != [] && r[i][0] == bufs[q[i][0]] && Rows(Moved(q, i, 0, j), bufs[q[i][0] := b]) == r[i := r[i][1..]]
  {
    var r, r' := Rows(q, bufs), Rows(Moved(q, i, 0, j), bufs[q[i][0] := b]);
    HeadHeld(q, bufs, i, j, b);
    forall a | URGENT <= a < ROW && a != i
      ensures r'[a] == r[a]
    {
      HeldSame(q, bufs, i, j, b, a);
    }
    assert r' == r[i := r[i][1..]];
  }

  // A buffer from the pool joins the tail of queue j.
  lemma JoinedRows(q: Queues, bufs: seq<Buff>, j: int, b: Buff)
    requires Good(q, bufs) && URGENT <= j < ROW && q[FREE] != []
    requires Good(Moved(q, FREE, 0, j), bufs[q[FREE][0] := b])
    ensures Rows(Moved(q, FREE, 0, j), bufs[q[FREE][0] := b]) == Rows(q, bufs)[j := Rows(q, bufs)[j] + [b]]
  {
    var r, r', x := Rows(q, bufs), Rows(Moved(q, FREE, 0, j), bufs[q[FREE][0] := b]), q[FREE][0];
    forall a | URGENT <= a < ROW && a != j
      ensures r'[a] == r[a]
    {
      HeldSame(q, bufs, FREE, j, b, a);
    }
    forall m | 0 <= m < |q[j]|
      ensures q[j][m] != x
    {
      if q[j][m] == x { OnePlace(q, j, m, FREE, 0); }
    }
    assert r'[j] == r[j] + [b];
    assert r' == r[j := r[j] + [b]];
  }

  lemma PairedRows(q: Queues, bufs: seq<Buff>, j: int, l: int, d: Data)
    requires Good(q, bufs) && BANK <= j < ROW && CanPair(q, bufs, j) && Good(q, WithPair(q, bufs, j, l, d))
    ensures var r, n := Rows(q, bufs), |q[j]| - 1;
      |r[j]| == n + 1 && Rows(q, WithPair(q, bufs, j, l, d)) == r[j := r[j][n := Paired(r[j][n], l, d)]]
  {
    var r, r', n := Rows(q, bufs), Rows(q, WithPair(q, bufs, j, l, d)), |q[j]| - 1;
    forall a, m | URGENT <= a < ROW && 0 <= m < |q[a]| && q[a][m] == q[j][n]
      ensures a == j && m == n
    {
      OnePlace(q, a, m, j, n);
    }
    forall a | 0 <= a < ROW
      ensures r'[a] == if a == j then r[j][n := Paired(r[j][n], l, d)] else r[a]
    {
    }
    assert r' == r[j := r[j][n := Paired(r[j][n], l, d)]];
  }

  lemma PairedAdded(q: Queues, bufs: seq<Buff>, j: int, l: int, d: Data)
    requires Good(q, bufs) && BANK <= j < ROW && CanPair(q, bufs, j) && Good(q, WithPair(q, bufs, j, l, d))
    ensures Added(Rows(q, bufs), Rows(q, WithPair(q, bufs, j, l, d)), j, l, d)
  {
    hide Conserved;
    PairedRows(q, bufs, j, l, d);
  }

  lemma NewAdded(q: Queues, bufs: seq<Buff>, j: int, b: Buff, l: int, d: Data)
    requires Good(q, bufs) && URGENT <= j < ROW && q[FREE] != [] && (j >= BANK ==> !CanPair(q, bufs, j) && b.partial)
    requires Good(Moved(q, FREE, 0, j), bufs[q[FREE][0] := b]) && b.lpn0 == l && b.data0 == d && b.lpn1 == INVALID_LPN
    ensures Added(Rows(q, bufs), Rows(Moved(q, FREE, 0, j), bufs[q[FREE][0] := b]), j, l, d)
  {
    JoinedRows(q, bufs, j, b);
  }

  class Hil {
    var q: Queues
    var bufs: seq<Buff>
    var urgent: nat                  // on_going_urgent_request
    var normal: nat                  // on_going_normal_request
    var rr: nat                      // global_rr_cnt
    var frames: seq<int>             // writebuf_addr of both cores, plane by plane
    ghost var taken: seq<seq<Buff>>  // the buffers RSP_WritePage of each core was called with

    ghost predicate QueuesOk()
      reads this
    {
      && Good(q, bufs) && |taken| == CORES
      && urgent == |q[URGENT]| + |q[URGENT + 1]|
      && normal == PagesAll(q[BANK..], bufs)
    }

    ghost predicate Valid()
      reads this
    {
      QueuesOk() && Framed(q[WAITING], frames)
    }

    ghost function Contents(): (r: seq<seq<Buff>>)
      requires Valid()
      reads this
      ensures |r| == ROW
    {
      Rows(q, bufs)
    }

    // Between two calls of the host fewer than 32 pages are queued.
    predicate Settled()
      reads this
    {
      urgent + normal < BUFF_THRESHOLD
    }

    constructor ()
      ensures Valid() && Settled() && urgent == 0 && normal == 0 && |q[FREE]| == NUM_BUFF && taken == [[], []]
      ensures forall j :: 0 <= j < ROW && j != FREE ==> q[j] == []
      ensures forall c, l :: 0 <= c < CORES && l != INVALID_LPN ==> History(taken, q, bufs, c, l) == []
    {
      var pool := seq(NUM_BUFF, i => i);
      q := [pool] + seq(ROW - 1, i => []);
      bufs := seq(NUM_BUFF, i => Buff(INVALID_LPN, INVALID_LPN, 0, 0, false));
      urgent, normal, rr := 0, 0, 0;
      taken := [[], []];
      frames := seq(FRAMES, i => NONE);
      new;
      PoolConserved(q);
      forall i | 0 <= i < |q[BANK..]|
        ensures q[BANK..][i] == []
      {
      }
      NoPages(q[BANK..], bufs);
    }

    method BuffFree(x: int)
      requires QueuesOk() && x in q[WAITING]
      modifies `q, `bufs
      ensures QueuesOk() && Kept(old(q), old(bufs), q, bufs)
      ensures x in q[FREE] && |q[FREE]| == |old(q)[FREE]| + 1 && |q[WAITING]| == |old(q)[WAITING]| - 1
      ensures forall y :: y in q[WAITING] <==> y in old(q)[WAITING] && y != x
    {
      var i := 0;
      while i < |q[WAITING]| - 1 && q[WAITING][i] != x
        invariant 0 <= i < |q[WAITING]| && x in q[WAITING][i..]
      {
        i := i + 1;
      }
      MovedKept(q, bufs, i);
      RemovedOne(q, i);
      bufs := bufs[x := Cleared(bufs[x])];
      q := Moved(q, WAITING, i, FREE);
    }

    // Issue of a full write buffer of a core: every frame goes back to the pool,
    // where HIL_BuffFree finds it.  `x` is not a frame yet.
    method Issue(core: int, w: int, ghost x: int)
      requires QueuesOk() && FramedBut(q[WAITING], frames, x) && 0 <= core < CORES && 0 <= w < PER_CORE_BUFFERS
      modifies `q, `bufs, `frames
      ensures QueuesOk() && FramedBut(q[WAITING], frames, x) && Kept(old(q), old(bufs), q, bufs)
      ensures x in old(q)[WAITING] ==> x in q[WAITING]
      ensures |q[FREE]| >= |old(q)[FREE]|
    {
      for plane := 0 to PLANES
        invariant QueuesOk() && FramedBut(q[WAITING], frames, x) && Kept(old(q), old(bufs), q, bufs)
        invariant x in old(q)[WAITING] ==> x in q[WAITING]
        invariant |q[FREE]| >= |old(q)[FREE]|
      {
        var f := (core * PER_CORE_BUFFERS + w) * PLANES + plane;
        if frames[f] != NONE {
          label full:
          BuffFree(frames[f]);
          FrameEmptied(old@full(q)[WAITING], q[WAITING], frames, f, x);
          frames := frames[f := NONE];
        }
      }
    }

    // RSP_WritePage of a core: a page of data may enter a write buffer, its
    // buffer then being a new frame (the answer tells); any write buffers of the
    // core may be issued on the way.  Command pages are not kept.
    method Translate(core: int, x: int) returns (ret: bool)
      requires QueuesOk() && 0 <= core < CORES && 0 <= x < NUM_BUFF
      requires if IsData(bufs[x]) then x in q[WAITING] && FramedBut(q[WAITING], frames, x)
        else Framed(q[WAITING], frames)
      modifies `q, `bufs, `taken, `frames
      ensures QueuesOk() && Kept(old(q), old(bufs), q, bufs)
      ensures taken == old(taken)[core := old(taken)[core] + [old(bufs)[x]]]
      ensures ret ==> IsData(old(bufs)[x])
      ensures if ret || !IsData(old(bufs)[x]) then Framed(q[WAITING], frames)
        else x in q[WAITING] && FramedBut(q[WAITING], frames, x)
      ensures |q[FREE]| >= |old(q)[FREE]|
    {
      var data := IsData(bufs[x]);
      taken := taken[core := taken[core] + [bufs[x]]];
      ret := false;
      var n: nat := *;
      while n > 0
        invariant QueuesOk() && Kept(old(q), old(bufs), q, bufs) && (ret ==> data)
        invariant taken == old(taken)[core := old(taken)[core] + [old(bufs)[x]]]
        invariant if ret || !data then Framed(q[WAITING], frames)
          else x in q[WAITING] && FramedBut(q[WAITING], frames, x)
        invariant |q[FREE]| >= |old(q)[FREE]|
      {
        var w, plane := *, *;
        if 0 <= w < PER_CORE_BUFFERS && 0 <= plane < PLANES {
          var f := (core * PER_CORE_BUFFERS + w) * PLANES + plane;
          if data && !ret && frames[f] == NONE {
            FrameFilled(q[WAITING], frames, f, x);
            frames := frames[f := x];
            ret := true;
          } else {
            Issue(core, w, if data && !ret then x else NONE);
          }
        }
        n := n - 1;
      }
    }

    // One request of an urgent queue: the answer for a command page is false, so
    // its buffer goes back to the pool.
    method FetchUrgent(core: int)
      requires Valid() && 0 <= core < CORES
      modifies `q, `bufs, `taken, `frames, `urgent
      ensures Valid() && SameHistory(old(taken), old(q), old(bufs), taken, q, bufs)
      ensures urgent == old(urgent) - if old(q)[URGENT + core] != [] then 1 else 0
      ensures q[URGENT + 1 - core] == old(q)[URGENT + 1 - core] && |q[FREE]| >= |old(q)[FREE]|
      ensures forall j :: BANK <= j < ROW ==> q[j] == old(q)[j] && Held(q[j], bufs) == Held(old(q)[j], old(bufs))
      ensures if old(q)[URGENT + core] == [] then taken == old(taken) && q == old(q) && bufs == old(bufs)
              else Popped(old(taken), old(Contents()), taken, Contents(), core, URGENT + core)
    {
      hide History, PagesAll, Writes, Owners, Conserved;
      if q[URGENT + core] != [] {
        var i := URGENT + core;
        var x := q[i][0];
        assert InQueue(bufs[x], i, 0 == |q[i]| - 1);
        var _ := Translate(core, x);
        assert x == q[i][0] && bufs[x] == Held(q[i], bufs)[0] == Held(old(q)[i], old(bufs))[0] == old(bufs)[x];
        KeptHistory(old(taken), old(q), old(bufs), q, bufs);
        KeptRows(old(q), old(bufs), q, bufs);
        var j, b := FREE, Cleared(bufs[x]);
        HandedHistory(old(taken), q, bufs, i, core, j, b);
        MovedPages(q, bufs, i, 0, j, b);
        MovedRows(q, bufs, i, j, b);
        forall a | BANK <= a < ROW
          ensures Held(Moved(q, i, 0, j)[a], bufs[x := b]) == Held(q[a], bufs)
        {
          HeldSame(q, bufs, i, j, b, a);
        }
        bufs := bufs[x := b];
        q := Moved(q, i, 0, j);
        urgent := urgent - 1;
      }
    }

    // The first bank queue of a core, from the round-robin start, that has a
    // buffer.
    method PickBank(core: int) returns (i: int)
      requires Valid() && 0 <= core < CORES
      ensures i == -1 ==> NoBank(q, core)
      ensures i != -1 ==> BANK + core * PER_CORE <= i < BANK + core * PER_CORE + PER_CORE && q[i] != []
      ensures i != -1 ==> FirstBank(Contents(), core, rr, i)
    {
      i := -1;
      var iter := 0;
      while iter < PER_CORE
        invariant 0 <= iter <= PER_CORE && i == -1
        invariant forall k :: 0 <= k < iter ==> q[Turn(core, rr, k)] == []
      {
        if q[Turn(core, rr, iter)] != [] {
          assert forall j :: 0 <= j < iter ==> Contents()[Turn(core, rr, j)] == [];
          return Turn(core, rr, iter);
        }
        iter := iter + 1;
      }
      forall j | BANK + core * PER_CORE <= j < BANK + core * PER_CORE + PER_CORE
        ensures q[j] == []
      {
        var k := TurnOf(core, rr, j);
      }
    }

    // One request of a core's bank queues.
    method FetchBank(core: int) returns (ghost bank: int)
      requires Valid() && 0 <= core < CORES
      modifies `q, `bufs, `taken, `frames, `normal
      ensures Valid() && SameHistory(old(taken), old(q), old(bufs), taken, q, bufs)
      ensures normal <= old(normal)
      ensures normal == old(normal) ==> q == old(q) && NoBank(q, core)
      ensures q[URGENT] == old(q)[URGENT] && q[URGENT + 1] == old(q)[URGENT + 1]
      ensures bank == -1 ==> NoBank(old(q), core) && q == old(q) && bufs == old(bufs) && taken == old(taken)
      ensures bank != -1 ==>
        && FirstBank(old(Contents()), core, rr, bank)
        && Popped(old(taken), old(Contents()), taken, Contents(), core, bank)
    {
      var i := PickBank(core);
      bank := i;
      if i != -1 {
        var x := q[i][0];
        NotWaiting(q, i);
        HandedHistory(taken, q, bufs, i, core, WAITING, bufs[x]);
        MovedPages(q, bufs, i, 0, WAITING, bufs[x]);
        MovedRows(q, bufs, i, WAITING, bufs[x]);
        assert bufs[x := bufs[x]] == bufs && InQueue(bufs[x], i, 0 == |q[i]| - 1);
        normal := normal - PagesOf(bufs[x]);
        q := Moved(q, i, 0, WAITING);
        assert q[WAITING][|q[WAITING]| - 1] == x;
        label handed:
        var ret := Translate(core, x);
        KeptHistory(taken, old@handed(q), old@handed(bufs), q, bufs);
        KeptRows(old@handed(q), old@handed(bufs), q, bufs);
        if !ret {
          label done:
          BuffFree(x);
          KeptHistory(taken, old@done(q), old@done(bufs), q, bufs);
          KeptRows(old@done(q), old@done(bufs), q, bufs);
        }
      }
    }

    lemma Idle()
      requires Valid()
      ensures urgent == 0 && normal == 0 <==> forall j :: URGENT <= j < ROW ==> q[j] == []
    {
      var rest := q[BANK..];
      forall k, i | 0 <= k < |rest| && 0 <= i < |rest[k]|
        ensures 0 <= rest[k][i] < |bufs| && PagesOf(bufs[rest[k][i]]) > 0
      {
        assert InQueue(bufs[q[k + BANK][i]], k + BANK, i == |q[k + BANK]| - 1);
      }
      NoPages(rest, bufs);
      if urgent == 0 && normal == 0 {
        forall j | URGENT <= j < ROW
          ensures q[j] == []
        {
          if j >= BANK { assert rest[j - BANK] == q[j]; }
        }
      }
    }

    // What a core has been called with and what it still is to be called with.
    ghost function Line(c: int): seq<Buff>
      requires Valid() && 0 <= c < CORES
      reads this
    {
      taken[c] + Due(Contents(), c, rr)
    }

    // Everything queued is handed over: to each core the buffers of its urgent
    // queue first, in order, then its bank queues, one after the other.
    method Drain()
      requires Valid()
      modifies `q, `bufs, `taken, `frames, `urgent, `normal
      ensures Valid() && SameHistory(old(taken), old(q), old(bufs), taken, q, bufs)
      ensures urgent + normal == 0 && forall j :: URGENT <= j < ROW ==> q[j] == []
      ensures forall c :: 0 <= c < CORES ==>
        && taken[c] == old(taken[c] + Held(q[URGENT + c], bufs) + BanksFrom(Contents(), c, rr, 0))
        && (forall b :: b in old(BanksFrom(Contents(), c, rr, 0)) ==> IsData(b))
    {
      hide Good, Due, BanksFrom, Framed, History, PagesAll;
      LineParts(0);
      LineParts(1);
      while urgent + normal != 0
        invariant Valid() && SameHistory(old(taken), old(q), old(bufs), taken, q, bufs)
        invariant Line(0) == old(Line(0)) && Line(1) == old(Line(1))
        decreases urgent + normal
      {
        if urgent != 0 {
          NextUrgent(0);
          NextUrgent(1);
        } else {
          Idle();
          NextBank(0);
          NextBank(1);
        }
      }
      Idle();
      AllHandedOver(0);
      AllHandedOver(1);
    }

    lemma LineParts(c: int)
      requires Valid() && 0 <= c < CORES
      ensures Line(c) == taken[c] + Held(q[URGENT + c], bufs) + BanksFrom(Contents(), c, rr, 0)
      ensures forall b :: b in BanksFrom(Contents(), c, rr, 0) ==> IsData(b)
    {
      hide BanksFrom, PagesAll, Framed;
      BanksAreData(q, bufs, c, rr, 0);
    }

    method NextUrgent(core: int)
      requires Valid() && 0 <= core < CORES
      modifies `q, `bufs, `taken, `frames, `urgent
      ensures Valid() && SameHistory(old(taken), old(q), old(bufs), taken, q, bufs)
      ensures urgent == old(urgent) - if old(q)[URGENT + core] != [] then 1 else 0
      ensures q[URGENT + 1 - core] == old(q)[URGENT + 1 - core]
      ensures Line(0) == old(Line(0)) && Line(1) == old(Line(1))
    {
      FetchUrgent(core);
      if old(q)[URGENT + core] != [] {
        PoppedDue(old(taken), old(Contents()), taken, Contents(), core, URGENT + core, rr, 0);
        PoppedDue(old(taken), old(Contents()), taken, Contents(), core, URGENT + core, rr, 1);
      }
    }

    method NextBank(core: int)
      requires Valid() && 0 <= core < CORES && q[URGENT + core] == []
      modifies `q, `bufs, `taken, `frames, `normal
      ensures Valid() && SameHistory(old(taken), old(q), old(bufs), taken, q, bufs)
      ensures normal <= old(normal) && (normal == old(normal) ==> q == old(q) && NoBank(q, core))
      ensures q[URGENT] == old(q)[URGENT] && q[URGENT + 1] == old(q)[URGENT + 1]
      ensures Line(0) == old(Line(0)) && Line(1) == old(Line(1))
    {
      ghost var bank := FetchBank(core);
      if bank != -1 {
        PoppedDue(old(taken), old(Contents()), taken, Contents(), core, bank, rr, 0);
        PoppedDue(old(taken), old(Contents()), taken, Contents(), core, bank, rr, 1);
      }
    }

    lemma AllHandedOver(c: int)
      requires Valid() && 0 <= c < CORES && forall j :: URGENT <= j < ROW ==> q[j] == []
      ensures Line(c) == taken[c]
    {
      NothingDue(Contents(), c, rr);
    }

    // A request to a command page: a buffer of its own.
    method QueueUrgent(core: int, l: int, d: Data)
      requires Valid() && Settled() && 0 <= core < CORES && l >= SPECIAL_LPN_START
      modifies `q, `bufs, `urgent
      ensures Valid() && OneMore(taken, old(q), old(bufs), q, bufs, core, l, d) && urgent == old(urgent) + 1
      ensures Added(old(Contents()), Contents(), URGENT + core, l, d)
    {
      hide Framed, FramedBut;
      NeverEmpty();
      var x := q[FREE][0];
      assert InQueue(bufs[x], FREE, 0 == |q[FREE]| - 1);
      var b := bufs[x].(lpn0 := l, data0 := d);
      MovedGood(q, bufs, FREE, 0, URGENT + core, b);
      MovedPages(q, bufs, FREE, 0, URGENT + core, b);
      NewAdded(q, bufs, URGENT + core, b, l, d);
      forall c, l' | 0 <= c < CORES && l' != INVALID_LPN
        ensures History(taken, Moved(q, FREE, 0, URGENT + core), bufs[x := b], c, l')
             == History(taken, q, bufs, c, l') + if c == core && l' == l then [d] else []
      {
        Enqueued(taken, q, bufs, core, l, b, c, l');
      }
      bufs := bufs[x := b];
      q := Moved(q, FREE, 0, URGENT + core);
      urgent := urgent + 1;
    }

    // A data page: the second half of the partial tail of its bank queue, or
    // the first half of a new buffer.
    method QueueNormal(core: int, l: int, d: Data)
      requires Valid() && Settled() && 0 <= core < CORES && 0 <= l < SPECIAL_LPN_START
      modifies `q, `bufs, `normal
      ensures Valid() && OneMore(taken, old(q), old(bufs), q, bufs, core, l, d) && normal == old(normal) + 1
      ensures Added(old(Contents()), Contents(), BANK + core * PER_CORE + l % PER_CORE, l, d)
    {
      hide Framed, FramedBut, PagesAll, OneMore, Added;
      var j := QueueOf(core, l);
      if CanPair(q, bufs, j) {
        PairTail(core, l, d);
      } else {
        NeverEmpty();
        NewTail(core, l, d);
      }
    }

    method PairTail(core: int, l: int, d: Data)
      requires Valid() && 0 <= core < CORES && 0 <= l < SPECIAL_LPN_START && CanPair(q, bufs, QueueOf(core, l))
      modifies `bufs, `normal
      ensures Valid() && OneMore(taken, q, old(bufs), q, bufs, core, l, d) && normal == old(normal) + 1
      ensures Added(old(Contents()), Contents(), QueueOf(core, l), l, d)
    {
      hide Framed, FramedBut, History, Added, Rows, Conserved, PagesAll;
      var j := QueueOf(core, l);
      assert (core * PER_CORE + l % PER_CORE) % PER_CORE == l % PER_CORE;
      var x := q[j][|q[j]| - 1];
      PairedGood(q, bufs, j, l, d);
      PairedAdded(q, bufs, j, l, d);
      forall c, l' | 0 <= c < CORES && l' != INVALID_LPN
        ensures History(taken, q, WithPair(q, bufs, j, l, d), c, l')
             == History(taken, q, bufs, c, l') + if c == core && l' == l then [d] else []
      {
        PairedHistory(taken, q, bufs, core, l, d, c, l');
      }
      bufs := bufs[x := Paired(bufs[x], l, d)];
      normal := normal + 1;
    }

    method NewTail(core: int, l: int, d: Data)
      requires Valid() && 0 <= core < CORES && 0 <= l < SPECIAL_LPN_START && q[FREE] != []
      requires !CanPair(q, bufs, QueueOf(core, l))
      modifies `q, `bufs, `normal
      ensures Valid() && OneMore(taken, old(q), old(bufs), q, bufs, core, l, d) && normal == old(normal) + 1
      ensures Added(old(Contents()), Contents(), QueueOf(core, l), l, d)
    {
      hide Framed, FramedBut, History, Added, Rows, Conserved, PagesAll;
      var j := QueueOf(core, l);
      assert (core * PER_CORE + l % PER_CORE) % PER_CORE == l % PER_CORE;
      var x := q[FREE][0];
      assert InQueue(bufs[x], FREE, 0 == |q[FREE]| - 1);
      var b := bufs[x].(lpn0 := l, data0 := d, partial := true);
      MovedGood(q, bufs, FREE, 0, j, b);
      MovedPages(q, bufs, FREE, 0, j, b);
      NewAdded(q, bufs, j, b, l, d);
      forall c, l' | 0 <= c < CORES && l' != INVALID_LPN
        ensures History(taken, Moved(q, FREE, 0, j), bufs[x := b], c, l')
             == History(taken, q, bufs, c, l') + if c == core && l' == l then [d] else []
      {
        Enqueued(taken, q, bufs, core, l, b, c, l');
      }
      bufs := bufs[x := b];
      q := Moved(q, FREE, 0, j);
      normal := normal + 1;
    }

    // The pool never runs out, so the assertions of HIL_WriteLPN, HIL_ReadLPN
    // and del_buff that a buffer is there cannot be reached: at most 192 buffers
    // wait, and at most 31 hold pages that are queued.
    lemma NeverEmpty()
      requires Valid() && Settled()
      ensures |q[FREE]| > NUM_BUFF - FRAMES - BUFF_THRESHOLD
    {
      FewWaiting(q, frames);
      PoolLeft(q, bufs);
    }

    // HIL_WriteLPN: the page becomes the last write of its history; once 32
    // pages are queued all of them are handed over.
    method WriteLPN(lpn: int, d: Data) returns (ret: bool, ghost r: seq<seq<Buff>>)
      requires Valid() && Settled() && 0 <= lpn
      modifies `q, `bufs, `taken, `frames, `urgent, `normal
      ensures Valid() && Settled() && ret
      ensures forall c, l :: 0 <= c < CORES && l != INVALID_LPN ==>
        History(taken, q, bufs, c, l) == History(old(taken), old(q), old(bufs), c, l)
          + if l * CORES + c == lpn then [d] else []
      ensures var n := old(urgent + normal) + 1;
        if n < BUFF_THRESHOLD then urgent + normal == n && taken == old(taken)
        else urgent + normal == 0 && forall j :: URGENT <= j < ROW ==> q[j] == []
      ensures |r| == ROW && Added(old(Contents()), r,
        if lpn / CORES >= SPECIAL_LPN_START then URGENT + lpn % CORES
        else BANK + lpn % CORES * PER_CORE + lpn / CORES % PER_CORE, lpn / CORES, d)
      ensures if old(urgent + normal) + 1 < BUFF_THRESHOLD then Contents() == r
        else forall c :: 0 <= c < CORES ==> taken[c] == old(taken)[c] + r[URGENT + c] + BanksFrom(r, c, rr, 0)
    {
      hide Good, Framed, BanksFrom, PagesAll, Added, Writes;
      var core, l := lpn % CORES, lpn / CORES;
      if l >= SPECIAL_LPN_START {
        QueueUrgent(core, l, d);
      } else {
        QueueNormal(core, l, d);
      }
      r := Contents();
      if urgent + normal >= BUFF_THRESHOLD {
        Drain();
      }
      ret := true;
    }

    ghost function UrgentLine(c: int): seq<Buff>
      requires Valid() && 0 <= c < CORES
      reads this
    {
      taken[c] + Contents()[URGENT + c]
    }

    lemma UrgentHeld(c: int)
      requires Valid() && 0 <= c < CORES
      ensures UrgentLine(c) == taken[c] + Held(q[URGENT + c], bufs)
    {
    }

    method SendUrgent(core: int)
      requires Valid() && 0 <= core < CORES
      modifies `q, `bufs, `taken, `frames, `urgent
      ensures Valid() && SameHistory(old(taken), old(q), old(bufs), taken, q, bufs)
      ensures urgent == old(urgent) - if old(q)[URGENT + core] != [] then 1 else 0
      ensures q[URGENT + 1 - core] == old(q)[URGENT + 1 - core] && |q[FREE]| >= |old(q)[FREE]|
      ensures forall j :: BANK <= j < ROW ==> q[j] == old(q)[j] && Held(q[j], bufs) == Held(old(q)[j], old(bufs))
      ensures UrgentLine(0) == old(UrgentLine(0)) && UrgentLine(1) == old(UrgentLine(1))
    {
      hide History, Framed, PagesAll, Rows, Conserved;
      FetchUrgent(core);
      if old(q)[URGENT + core] != [] {
        PoppedUrgent(old(taken), old(Contents()), taken, Contents(), core, 0);
        PoppedUrgent(old(taken), old(Contents()), taken, Contents(), core, 1);
      }
    }

    lemma AllSent(c: int)
      requires Valid() && 0 <= c < CORES && q[URGENT + c] == []
      ensures UrgentLine(c) == taken[c]
    {
    }

    // HIL_ReadLPN: the command pages are handed over, then the read goes out
    // with a borrowed buffer.  `before` is what has been written to the page
    // when the translation layer sees the read: all of its history exactly
    // when no write to it waits in a bank queue, which is not looked at.
    method ReadLPN(lpn: int) returns (ghost before: seq<Data>)
      requires Valid() && Settled() && 0 <= lpn && lpn / CORES != INVALID_LPN
      modifies `q, `bufs, `taken, `frames, `urgent
      ensures Valid() && SameHistory(old(taken), old(q), old(bufs), taken, q, bufs)
      ensures urgent == 0 && normal == old(normal) && Settled()
      ensures forall c :: 0 <= c < CORES ==> taken[c] == old(taken[c] + Held(q[URGENT + c], bufs))
      ensures before == Writes(taken[lpn % CORES], lpn / CORES)
      ensures before == History(taken, q, bufs, lpn % CORES, lpn / CORES)
           <==> lpn / CORES >= SPECIAL_LPN_START
                || Writes(Held(old(q)[QueueOf(lpn % CORES, lpn / CORES)], old(bufs)), lpn / CORES) == []
    {
      hide Writes, History, Held, UrgentLine;
      NeverEmpty();
      UrgentHeld(0);
      UrgentHeld(1);
      while urgent != 0
        invariant Valid() && SameHistory(old(taken), old(q), old(bufs), taken, q, bufs) && q[FREE] != []
        invariant normal == old(normal)
        invariant forall j :: BANK <= j < ROW ==> q[j] == old(q)[j] && Held(q[j], bufs) == Held(old(q)[j], old(bufs))
        invariant UrgentLine(0) == old(UrgentLine(0)) && UrgentLine(1) == old(UrgentLine(1))
        decreases urgent
      {
        SendUrgent(0);
        SendUrgent(1);
      }
      AllSent(0);
      AllSent(1);
      var core, l := lpn % CORES, lpn / CORES;
      ReadOrder(taken, q, bufs, core, l);
      before := Writes(taken[core], l);
      ghost var all := History(taken, q, bufs, core, l);
      Borrowed(q, bufs);
      label sent:
      bufs := bufs[q[FREE][0] := Cleared(bufs[q[FREE][0]])];
      q := q[FREE := q[FREE][1..] + [q[FREE][0]]];
      KeptHistory(taken, old@sent(q), old@sent(bufs), q, bufs);
      assert all == History(taken, q, bufs, core, l);
    }
  }

  lemma ReadOrder(taken: seq<seq<Buff>>, q: Queues, bufs: seq<Buff>, core: int, l: int)
    requires Good(q, bufs) && |taken| == CORES && 0 <= core < CORES
    requires l >= SPECIAL_LPN_START ==> q[URGENT + core] == []
    ensures Writes(taken[core], l) == History(taken, q, bufs, core, l)
         <==> l >= SPECIAL_LPN_START || Writes(Held(q[QueueOf(core, l)], bufs), l) == []
  {
  }

  lemma Borrowed(q: Queues, bufs: seq<Buff>)
    requires Good(q, bufs) && q[FREE] != []
    ensures var x := q[FREE][0];
            var q', bufs' := q[FREE := q[FREE][1..] + [x]], bufs[x := Cleared(bufs[x])];
            Good(q', bufs') && Kept(q, bufs, q', bufs') && PagesAll(q'[BANK..], bufs') == PagesAll(q[BANK..], bufs)
  {
    var x := q[FREE][0];
    var q', bufs' := q[FREE := q[FREE][1..] + [x]], bufs[x := Cleared(bufs[x])];
    forall y
      ensures Owners(q', y) == Owners(q, y)
    {
      assert q[FREE] == [x] + q[FREE][1..];
      OwnersUpdate(q, FREE, q[FREE][1..] + [x], y);
    }
    forall a, m | 0 <= a < ROW && 0 <= m < |q[a]| && q[a][m] == x
      ensures a == FREE && m == 0
    {
      OnePlace(q, a, m, FREE, 0);
    }
    forall j | URGENT <= j < ROW
      ensures Held(q[j], bufs') == Held(q[j], bufs)
    {
    }
    assert q'[BANK..] == q[BANK..];
    PagesAllSame(q[BANK..], bufs, bufs');
  }

  // A read can pass a write that is still queued.
  method ReadPassesWrite(d: Data) returns (h: Hil)
    ensures fresh(h) && h.Valid() && h.Settled()
    ensures History(h.taken, h.q, h.bufs, 0, 0) == [d] && Writes(h.taken[0], 0) == []
  {
    h := new Hil();
    var _, _ := h.WriteLPN(0, d);
  }
}
