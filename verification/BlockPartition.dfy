/** Where the blocks of a bank are: after RSP_Open and every later step each
    block is in exactly one list or slot (ATLWrapper.cpp:192-312, 484-523,
    1683-1796, 2307-2310, 2557-2563, 2708-2717, 2808-2836, 3207-3232). */
module BlockPartition {
  import opened Layout
  import opened FlashState
  import opened GcSpace

  // `gc` holds the empty block, if there is one.
  datatype Bank = Bank(free: seq<int>, data: seq<int>, rw: seq<int>, jn: seq<int>, victims: seq<int>,
                       gc: seq<int>, meta: seq<int>, maps: seq<int>)

  // No list at all: what a component that changes only some lists starts from.
  const NOTHING: Bank := Bank([], [], [], [], [], [], [], [])

  ghost function Times(s: seq<int>, x: int): nat {
    multiset(s)[x]
  }

  // How often block `x` occurs.
  ghost function Places(b: Bank, x: int): nat {
    Times(b.free, x) + Times(b.data, x) + Times(b.rw, x) + Times(b.jn, x) + Times(b.victims, x)
    + Times(b.gc, x) + Times(b.meta, x) + Times(b.maps, x)
  }

  function Down(n: nat, k: nat): (s: seq<int>)
    requires k <= n
    ensures |s| == k && forall i :: 0 <= i < k ==> s[i] == n - 1 - i
  {
    seq(k, i => n - 1 - i)
  }

  // Each of the `n` blocks is in exactly one place.
  ghost predicate Partition(b: Bank, n: nat) {
    forall x :: Places(b, x) == if 0 <= x < n then 1 else 0
  }

  // ------------------------------------------------ the steps

  datatype Step =
    | AllocData                 // assign_new_write_vpn
    | AllocRW
    | AllocJN
    | Collect(vt: int)          // garbage_collection
    | Round(vt: int, cursor: int, count: int)    // one victim of inter_GC: `count` pages copied behind page `cursor`
    | RemapDone(blk: int)       // the last awaited remap of a log block
    | Choose(blk: int)          // do_incremental_GC picks a victim
    | OpenGc                    // write_gc_buffer opens the empty block
    | Erase(vt: int)            // erase_victim_block
    | EraseRefill(vt: int)      // erase_victim_block with no empty block left
    | SwitchMap(i: int)         // map_write after collection
    | SwitchMeta                // bank_meta_flush

  ghost predicate Enabled(b: Bank, s: Step) {
    match s
    case AllocData => b.free != []
    case AllocRW => b.free != []
    case AllocJN => b.free != []
    case Collect(vt) => vt in b.data && |b.gc| == 1
    case Round(vt, cursor, count) => Roundable(b, vt, cursor, count) && 0 <= cursor && 0 <= count
    case RemapDone(x) => x in b.rw
    case Choose(x) => x in b.data
    case OpenGc => |b.gc| == 1
    case Erase(vt) => vt in b.victims
    case EraseRefill(vt) => vt in b.victims && b.gc == [] && b.free != []
    case SwitchMap(i) => 0 <= i < |b.maps| && b.free != []
    case SwitchMeta => b.free != [] && |b.meta| == 1
  }

  ghost function Apply(b: Bank, s: Step): Bank
    requires Enabled(b, s)
  {
    match s
    case AllocData => b.(free := b.free[1..], data := b.data + [b.free[0]])
    case AllocRW => b.(free := b.free[1..], rw := b.rw + [b.free[0]])
    case AllocJN => b.(free := b.free[1..], jn := b.jn + [b.free[0]])
    case Collect(vt) => b.(data := Without(b.data, vt) + [b.gc[0]], gc := [vt])
    case Round(vt, cursor, count) => RoundOf(b, vt, cursor, count)
    case RemapDone(x) => b.(rw := Without(b.rw, x), data := b.data + [x])
    case Choose(x) => b.(data := Without(b.data, x), victims := b.victims + [x])
    case OpenGc => b.(gc := [], data := b.data + [b.gc[0]])
    case Erase(vt) => b.(victims := Without(b.victims, vt), free := b.free + [vt])
    case EraseRefill(vt) => b.(victims := Without(b.victims, vt), gc := [b.free[0]], free := b.free[1..] + [vt])
    case SwitchMap(i) => b.(free := b.free[1..] + [b.maps[i]], maps := b.maps[i := b.free[0]])
    case SwitchMeta => b.(free := b.free[1..] + b.meta, meta := [b.free[0]])
  }

  lemma {:induction false} WithoutTimes(s: seq<int>, x: int, y: int)
    requires x in s
    ensures Times(Without(s, x), y) + Times([x], y) == Times(s, y)
  {
    assert s == [s[0]] + s[1..];
    if s[0] == x {
    } else {
      WithoutTimes(s[1..], x, y);
      assert Times(Without(s, x), y) == Times([s[0]], y) + Times(Without(s[1..], x), y);
    }
  }

  lemma AppendTimes(s: seq<int>, x: int, y: int)
    ensures Times(s + [x], y) == Times(s, y) + Times([x], y)
  {
  }

  lemma TailTimes(s: seq<int>, y: int)
    requires s != []
    ensures Times(s[1..], y) + Times([s[0]], y) == Times(s, y)
  {
    assert s == [s[0]] + s[1..];
  }

  lemma UpdateTimes(s: seq<int>, i: int, x: int, y: int)
    requires 0 <= i < |s|
    ensures Times(s[i := x], y) + Times([s[i]], y) == Times(s, y) + Times([x], y)
  {
  }

  // A round of inter_GC whose write pointer is in the empty block already, and
  // which does not open it, loses that block.
  ghost predicate Loses(b: Bank, s: Step)
    requires Enabled(b, s)
  {
    s.Round? && s.cursor / PAGES_PER_BLK in b.gc && !Opens(s.cursor, s.count)
  }

  // No other step loses or doubles a block.
  lemma StepConserves(b: Bank, s: Step, y: int)
    requires Enabled(b, s)
    ensures Places(Apply(b, s), y) == Places(b, y) - if Loses(b, s) && y in b.gc then 1 else 0
  {
    hide Times;
    NoTimes(y);
    match s {
      case AllocData => TailTimes(b.free, y); AppendTimes(b.data, b.free[0], y);
      case AllocRW => TailTimes(b.free, y); AppendTimes(b.rw, b.free[0], y);
      case AllocJN => TailTimes(b.free, y); AppendTimes(b.jn, b.free[0], y);
      case Collect(vt) =>
        WithoutTimes(b.data, vt, y);
        AppendTimes(Without(b.data, vt), b.gc[0], y);
        assert b.gc == [b.gc[0]];
      case Round(vt, cursor, count) => RoundPlaces(b, vt, cursor, count, y);
      case RemapDone(x) => WithoutTimes(b.rw, x, y); AppendTimes(b.data, x, y);
      case Choose(x) => WithoutTimes(b.data, x, y); AppendTimes(b.victims, x, y);
      case OpenGc => AppendTimes(b.data, b.gc[0], y); assert b.gc == [b.gc[0]];
      case Erase(vt) => WithoutTimes(b.victims, vt, y); AppendTimes(b.free, vt, y);
      case EraseRefill(vt) =>
        WithoutTimes(b.victims, vt, y);
        TailTimes(b.free, y);
        AppendTimes(b.free[1..], vt, y);
      case SwitchMap(i) =>
        TailTimes(b.free, y);
        AppendTimes(b.free[1..], b.maps[i], y);
        UpdateTimes(b.maps, i, b.free[0], y);
      case SwitchMeta => TailTimes(b.free, y); AppendTimes(b.free[1..], b.meta[0], y); assert b.meta == [b.meta[0]];
    }
  }

  lemma OneTime(x: int, y: int)
    ensures Times([x], y) == if y == x then 1 else 0
  {
  }

  lemma NoTimes(y: int)
    ensures Times([], y) == 0
  {
  }

  // No block is in two places.
  ghost predicate Apart(b: Bank) {
    forall x :: Places(b, x) <= 1
  }

  lemma StepApart(b: Bank, s: Step)
    requires Enabled(b, s) && Apart(b)
    ensures Apart(Apply(b, s))
  {
    forall x
      ensures Places(Apply(b, s), x) <= 1
    {
      StepConserves(b, s, x);
    }
  }

  lemma ApartFacts(b: Bank)
    requires Apart(b)
    ensures NoDup(b.free) && NoDup(b.data) && NoDup(b.rw) && NoDup(b.victims)
    ensures forall x :: x in b.data ==> x !in b.free && x !in b.rw && x !in b.victims && x !in b.gc
    ensures forall x :: x in b.free ==> x !in b.rw && x !in b.victims && x !in b.gc
    ensures forall x :: x in b.gc ==> x !in b.rw && x !in b.victims
    ensures forall x :: x in b.victims ==> x !in b.rw
  {
    Once(b.free, b);
    Once(b.data, b);
    Once(b.rw, b);
    Once(b.victims, b);
    forall x
      ensures x in b.data ==> x !in b.free && x !in b.rw && x !in b.victims && x !in b.gc
      ensures x in b.free ==> x !in b.rw && x !in b.victims && x !in b.gc
      ensures x in b.gc ==> x !in b.rw && x !in b.victims
      ensures x in b.victims ==> x !in b.rw
    {
      assert Places(b, x) <= 1;
    }
  }

  lemma Once(s: seq<int>, b: Bank)
    requires Apart(b) && forall x :: Times(s, x) <= Places(b, x)
    ensures NoDup(s)
  {
    forall i, j | 0 <= i < j < |s|
      ensures s[i] != s[j]
    {
      assert s == s[..i] + [s[i]] + s[i + 1..j] + [s[j]] + s[j + 1..];
      assert Times(s, s[i]) <= Places(b, s[i]) <= 1;
    }
  }

  // ------------------------------------------------ one round of inter_GC

  // Whether `count` copied pages behind page `cursor` open the empty block.
  predicate Opens(cursor: int, count: int) {
    cursor % PAGES_PER_BLK + (count + SLOTS - 1) / SLOTS >= PAGES_PER_BLK
  }

  // Without an empty block the copies must fit behind the write pointer.
  ghost predicate Roundable(b: Bank, vt: int, cursor: int, count: int) {
    vt in b.data && |b.gc| <= 1 && (b.gc == [] ==> !Opens(cursor, count))
  }

  // The lists after a round: the victim becomes the empty block if the write
  // pointer's block is the empty block by then, and a free block otherwise.
  ghost function RoundOf(b: Bank, vt: int, cursor: int, count: int): Bank
    requires Roundable(b, vt, cursor, count)
  {
    var opens := Opens(cursor, count);
    var data := Without(b.data, vt) + if opens then b.gc else [];
    if opens || cursor / PAGES_PER_BLK in b.gc then b.(data := data, gc := [vt])
    else b.(data := data, free := b.free + [vt])
  }

  lemma RoundCases(b: Bank, vt: int, cursor: int, count: int)
    requires Roundable(b, vt, cursor, count)
    ensures var b' := RoundOf(b, vt, cursor, count);
      if cursor / PAGES_PER_BLK in b.gc || Opens(cursor, count) then b'.gc == [vt] && b'.free == b.free
      else b'.gc == b.gc && b'.free == b.free + [vt]
    ensures var b' := RoundOf(b, vt, cursor, count);
      b' == b.(free := b'.free, data := b'.data, gc := b'.gc)
  {
  }

  // A round changes these lists only, whatever the others are.
  lemma RoundRest(b: Bank, vt: int, cursor: int, count: int)
    requires Roundable(b, vt, cursor, count)
    ensures var b' := RoundOf(b, vt, cursor, count);
      forall rest: Bank :: RoundOf(rest.(free := b.free, data := b.data, rw := b.rw, gc := b.gc), vt, cursor, count) ==
        rest.(free := b'.free, data := b'.data, rw := b'.rw, gc := b'.gc)
  {
  }

  // The blocks a round may touch next were touched by it already.
  lemma RoundWithin(b: Bank, vt: int, cursor: int, count: int)
    requires Roundable(b, vt, cursor, count) && NoDup(b.data)
    ensures forall x :: x in RoundOf(b, vt, cursor, count).data + RoundOf(b, vt, cursor, count).gc ==>
      x in b.data + b.gc
  {
    WithoutFacts(b.data, vt);
  }

  // How often a block occurs after a round.
  lemma RoundPlaces(b: Bank, vt: int, cursor: int, count: int, y: int)
    requires Roundable(b, vt, cursor, count)
    ensures Places(RoundOf(b, vt, cursor, count), y) ==
      Places(b, y) - if cursor / PAGES_PER_BLK in b.gc && !Opens(cursor, count) && y in b.gc then 1 else 0
  {
    hide Times;
    NoTimes(y);
    if b.gc != [] {
      OneTime(b.gc[0], y);
      assert b.gc == [b.gc[0]];
      AppendTimes(Without(b.data, vt), b.gc[0], y);
    }
    assert Without(b.data, vt) + [] == Without(b.data, vt);
    WithoutTimes(b.data, vt, y);
    AppendTimes(b.free, vt, y);
  }

  lemma RoundApart(b: Bank, vt: int, cursor: int, count: int)
    requires Roundable(b, vt, cursor, count) && Apart(b)
    ensures Apart(RoundOf(b, vt, cursor, count))
  {
    forall y
      ensures Places(RoundOf(b, vt, cursor, count), y) <= 1
    {
      RoundPlaces(b, vt, cursor, count, y);
    }
  }

  // A round loses the empty block exactly if the write pointer is in it and the
  // round does not open it; behind a full block, if the victim counts nothing.
  lemma RoundKeeps(b: Bank, n: nat, vt: int, cursor: int, count: int)
    requires Partition(b, n) && Roundable(b, vt, cursor, count) && 0 <= cursor && 0 <= count
    ensures Partition(RoundOf(b, vt, cursor, count), n) <==> cursor / PAGES_PER_BLK !in b.gc || Opens(cursor, count)
    ensures cursor % PAGES_PER_BLK == PAGES_PER_BLK - 1 ==> (Opens(cursor, count) <==> count > 0)
  {
    forall y
      ensures Places(RoundOf(b, vt, cursor, count), y) ==
        Places(b, y) - if cursor / PAGES_PER_BLK in b.gc && !Opens(cursor, count) && y in b.gc then 1 else 0
    {
      RoundPlaces(b, vt, cursor, count, y);
    }
    if b.gc != [] { assert b.gc == [b.gc[0]] && Places(b, b.gc[0]) > 0; }
  }

  lemma StepKeeps(b: Bank, s: Step, n: nat)
    requires Partition(b, n) && Enabled(b, s)
    ensures Partition(Apply(b, s), n) <==> !Loses(b, s)
    ensures Loses(b, s) ==> 0 <= b.gc[0] < n && Places(Apply(b, s), b.gc[0]) == 0
  {
    forall x
      ensures Places(Apply(b, s), x) == Places(b, x) - if Loses(b, s) && x in b.gc then 1 else 0
    {
      StepConserves(b, s, x);
    }
    if s.Round? && b.gc != [] { assert Times(b.gc, b.gc[0]) == 1 && Places(b, b.gc[0]) > 0; }
  }

  // ------------------------------------------------ whole runs

  // The lists as RSP_Open leaves them: every block was put at the front of the
  // free list, and `m` map blocks, the meta block, the empty block and the
  // three blocks to write were taken from its head.
  function AfterOpen(n: nat, m: nat): Bank
    requires m + 5 <= n
  {
    var all := Down(n, n);
    Bank(all[m + 5..], [all[m + 2]], [all[m + 3]], [all[m + 4]], [], [all[m + 1]], [all[m]], all[..m])
  }

  lemma OpenBlocks(n: nat, m: nat)
    requires m + 5 <= n
    ensures var b := AfterOpen(n, m);
      && b.gc == [n - m - 2] && b.data == [n - m - 3] && b.rw == [n - m - 4] && b.jn == [n - m - 5]
      && b.free == Down(n, n)[m + 5..] && (forall x :: x in b.free ==> 0 <= x < n - m - 5)
  {
  }

  lemma OpenPartition(n: nat, m: nat)
    requires m + 5 <= n
    ensures Partition(AfterOpen(n, m), n)
  {
    var all, b := Down(n, n), AfterOpen(n, m);
    assert all == all[..m] + [all[m]] + [all[m + 1]] + [all[m + 2]] + [all[m + 3]] + [all[m + 4]] + all[m + 5..];
    forall x
      ensures Places(b, x) == if 0 <= x < n then 1 else 0
    {
      DownCount(n, n, x);
    }
  }

  lemma {:induction false} DownCount(n: nat, k: nat, x: int)
    requires k <= n
    ensures Times(Down(n, k), x) == if n - k <= x < n then 1 else 0
  {
    if k > 0 {
      DownCount(n, k - 1, x);
      assert Down(n, k) == Down(n, k - 1) + [n - k];
    } else {
      assert Down(n, 0) == [];
    }
  }

  ghost predicate Possible(b: Bank, steps: seq<Step>)
    decreases |steps|
  {
    steps != [] ==> Enabled(b, steps[0]) && Possible(Apply(b, steps[0]), steps[1..])
  }

  ghost function Run(b: Bank, steps: seq<Step>): Bank
    requires Possible(b, steps)
    decreases |steps|
  {
    if steps == [] then b else Run(Apply(b, steps[0]), steps[1..])
  }

  // No round on the way loses a block.
  ghost predicate Tight(b: Bank, steps: seq<Step>)
    requires Possible(b, steps)
    decreases |steps|
  {
    steps != [] ==> !Loses(b, steps[0]) && Tight(Apply(b, steps[0]), steps[1..])
  }

  // A block that is nowhere stays nowhere.
  lemma {:induction false} LostForGood(b: Bank, steps: seq<Step>, y: int)
    requires Possible(b, steps) && Places(b, y) == 0
    ensures Places(Run(b, steps), y) == 0
    decreases |steps|
  {
    if steps == [] {
    } else {
      StepConserves(b, steps[0], y);
      LostForGood(Apply(b, steps[0]), steps[1..], y);
    }
  }

  // After a run each block is in exactly one place if and only if no round of
  // inter_GC has lost one.
  lemma {:induction false} RunPartition(b: Bank, steps: seq<Step>, n: nat)
    requires Possible(b, steps) && Partition(b, n)
    ensures Partition(Run(b, steps), n) <==> Tight(b, steps)
    decreases |steps|
  {
    if steps == [] {
    } else {
      StepKeeps(b, steps[0], n);
      if Loses(b, steps[0]) {
        LostForGood(Apply(b, steps[0]), steps[1..], b.gc[0]);
      } else {
        RunPartition(Apply(b, steps[0]), steps[1..], n);
      }
    }
  }

  lemma AlwaysPartition(n: nat, m: nat, steps: seq<Step>)
    requires m + 5 <= n && Possible(AfterOpen(n, m), steps)
    ensures Partition(Run(AfterOpen(n, m), steps), n) <==> Tight(AfterOpen(n, m), steps)
  {
    OpenPartition(n, m);
    RunPartition(AfterOpen(n, m), steps, n);
  }
}
