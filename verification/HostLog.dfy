/** The host's ring log of temporary writes and its redirection map
    (SHRD_host.cpp:23-334). */
module HostLog {
  import opened Layout
  import opened SetSizes

  const LOG: int := 32768                  // SHRD_RW_LOG_SIZE_IN_PAGE
  const LOG_START: int := 28803072         // SHRD_RW_LOG_START_IN_PAGE
  const REMAP_THRESHOLD: int := 20480
  const REMAP_SIZE: int := 16384
  const MIN_LOGGING: int := 128            // SHRD_MIN_RW_LOGGING_IO_SIZE_IN_PAGE
  const MAX_TWRITE: int := 128             // SHRD_MAX_TWRITE_IO_SIZE_IN_PAGE
  const MAX_TWRITE_SECTORS: int := 1024    // SHRD_MAX_TWRITE_IO_SIZE_IN_SECTOR
  const MAX_ENTRY: int := 128              // SHRD_NUM_MAX_TWRITE_ENTRY
  const MAX_REMAP_ENTRY: int := 511

  datatype Flag = Invalid | Valid | Remapping
  datatype Entry = Entry(o: int, t: int, flag: Flag)

  const CLEARED: Entry := Entry(0, 0, Invalid)

  // ------------------------------------------------ packing a header

  // The addresses of a header without its padding.
  function Unpadded(o: seq<int>): seq<int> {
    if o == [] then []
    else Unpadded(o[..|o| - 1]) + (if o[|o| - 1] == INVALID_LPN then [] else [o[|o| - 1]])
  }

  lemma UnpaddedNone()
    ensures Unpadded([]) == []
  {
  }

  lemma UnpaddedAppend(o: seq<int>, x: int)
    ensures Unpadded(o + [x]) == Unpadded(o) + (if x == INVALID_LPN then [] else [x])
  {
  }

  // Every pair of log slot and home address belongs to one core.
  ghost predicate SameCore(o: seq<int>, base: int) {
    forall i :: 0 <= i < |o| && o[i] != INVALID_LPN ==> (base + i) % 2 == o[i] % 2
  }

  // The slots of a header once `k` addresses have been drawn: an address of the
  // other core takes a padding slot as well.
  function Slots(lpns: seq<int>, base: int, k: nat): nat
    requires k <= |lpns|
  {
    if k == 0 then 0
    else
      var n := Slots(lpns, base, k - 1);
      n + if (base + n) % 2 != lpns[k - 1] % 2 then 2 else 1
  }

  lemma {:induction false} SlotsGrow(lpns: seq<int>, base: int, j: nat, k: nat)
    requires j <= k <= |lpns|
    ensures Slots(lpns, base, j) + (k - j) <= Slots(lpns, base, k)
  {
    if j == k {
    } else {
      SlotsGrow(lpns, base, j, k - 1);
    }
  }

  // The addresses drawn fill all 128 slots of a header: the last two hold a
  // padding and an address of the other core.
  predicate Fills(lpns: seq<int>, base: int) {
    exists k :: 0 <= k < |lpns| && Slots(lpns, base, k) == MAX_ENTRY - 2 && base % 2 != lpns[k] % 2
  }

  lemma HeaderFull(lpns: seq<int>, base: int, packing: nat, drawn: nat)
    requires drawn < |lpns| && packing < MAX_ENTRY && (drawn > 0 ==> Slots(lpns, base, drawn - 1) < packing)
    requires Slots(lpns, base, drawn) <= MAX_ENTRY
    requires var n := Slots(lpns, base, drawn);
      n == MAX_ENTRY || n >= packing || ((base + n) % 2 != lpns[drawn] % 2 && n + 2 > MAX_ENTRY)
    ensures Slots(lpns, base, drawn) == MAX_ENTRY <==> packing == MAX_ENTRY - 1 && Fills(lpns, base)
  {
    if packing == MAX_ENTRY - 1 && Fills(lpns, base) {
      var k :| 0 <= k < |lpns| && Slots(lpns, base, k) == MAX_ENTRY - 2 && base % 2 != lpns[k] % 2;
      if drawn <= k {
        SlotsGrow(lpns, base, drawn, k);
      } else {
        assert Slots(lpns, base, k + 1) == MAX_ENTRY;
        SlotsGrow(lpns, base, k + 1, drawn);
      }
    }
  }

  // The header holds the first `drawn` addresses, in order, each in a slot of its
  // core, padded no more than that needs; it ends where as many slots are packed
  // as asked for, or the next address does not fit any more.
  ghost predicate Packed(o: seq<int>, lpns: seq<int>, base: int, packing: nat, maxPacked: nat, drawn: nat) {
    && drawn < |lpns| && |o| <= maxPacked && Unpadded(o) == lpns[..drawn] && SameCore(o, base)
    && |o| == Slots(lpns, base, drawn) && (o != [] ==> o[|o| - 1] != INVALID_LPN)
    && (drawn > 0 ==> Slots(lpns, base, drawn - 1) < packing)
    && (|o| == maxPacked || |o| >= packing || ((base + |o|) % 2 != lpns[drawn] % 2 && |o| + 2 > maxPacked))
  }

  // The packing loop of do_twrite: `lpns` are the addresses drawn, and a slot is
  // padded when the next address belongs to the other core.
  method PackHeader(lpns: seq<int>, base: int, packing: nat, maxPacked: nat) returns (o: seq<int>, drawn: nat)
    requires |lpns| > maxPacked && forall i :: 0 <= i < |lpns| ==> 0 <= lpns[i] < INVALID_LPN
    ensures Packed(o, lpns, base, packing, maxPacked, drawn) && |o| <= packing + 1
  {
    hide Unpadded;
    o, drawn := [], 0;
    UnpaddedNone();
    var reqPages := 0;
    while true
      invariant reqPages == |o| <= maxPacked && |o| <= packing + 1 && drawn <= |o|
      invariant SameCore(o, base) && Unpadded(o) == lpns[..drawn]
      invariant o != [] ==> o[|o| - 1] != INVALID_LPN
      invariant |o| == Slots(lpns, base, drawn) && (drawn > 0 ==> Slots(lpns, base, drawn - 1) < packing)
      decreases maxPacked - |o|
    {
      var lpn := lpns[drawn];
      reqPages := reqPages + 1;
      if reqPages > maxPacked {
        break;
      }
      if reqPages > packing {
        break;
      }
      if (base + |o|) % 2 != lpn % 2 {
        // not aligned, need to pad
        if reqPages + 1 > maxPacked {
          break;
        }
        reqPages := reqPages + 1;
        UnpaddedAppend(o, INVALID_LPN);
        o := o + [INVALID_LPN];
      }
      UnpaddedAppend(o, lpn);
      o := o + [lpn];
      assert lpns[..drawn + 1] == lpns[..drawn] + [lpn];
      drawn := drawn + 1;
    }
  }

  // ------------------------------------------------ slots and window

  // The slots between the start and the next slot to write, around the ring.
  ghost predicate InWindow(slot: int, start: int, new_: int) {
    if start <= new_ then start <= slot < new_ else slot >= start || slot < new_
  }

  function Used(start: int, new_: int): int {
    if new_ >= start then new_ - start else LOG - start + new_
  }

  // That many slots there are.
  lemma UsedCounts(start: int, new_: int)
    requires 0 <= start < LOG && 0 <= new_ <= LOG
    ensures Used(start, new_) == |set s | 0 <= s < LOG && InWindow(s, start, new_)|
  {
    var w := set s | 0 <= s < LOG && InWindow(s, start, new_);
    if start <= new_ {
      assert w == Range(start, new_);
    } else {
      assert w == Range(start, LOG) + Range(0, new_);
      assert Range(start, LOG) !! Range(0, new_);
    }
  }

  ghost function Range(lo: int, hi: int): (r: set<int>)
    requires lo <= hi
    ensures |r| == hi - lo && forall s :: s in r <==> lo <= s < hi
    decreases hi - lo
  {
    if lo == hi then {} else Range(lo, hi - 1) + {hi - 1}
  }

  // Home addresses and valid slots correspond one to one.
  ghost predicate Bijection(entries: seq<Entry>, redirect: map<int, int>) {
    && |entries| == LOG
    && (forall k :: k in redirect ==>
          0 <= redirect[k] < LOG && entries[redirect[k]] == Entry(k, redirect[k] + LOG_START, Valid))
    && (forall s :: 0 <= s < LOG && entries[s].flag == Valid ==>
          entries[s].o in redirect && redirect[entries[s].o] == s)
  }

  ghost predicate Clean(entries: seq<Entry>, start: int, new_: int) {
    |entries| == LOG && forall s :: 0 <= s < LOG && entries[s].flag == Valid ==> InWindow(s, start, new_)
  }

  // The redirection map after the pages of a header, in order: the last one for
  // an address wins.
  function Redirected(m: map<int, int>, o: seq<int>, base: int): map<int, int> {
    if o == [] then m
    else
      var before := Redirected(m, o[..|o| - 1], base);
      if o[|o| - 1] == INVALID_LPN then before else before[o[|o| - 1] := base + |o| - 1]
  }

  lemma RedirectedStep(m: map<int, int>, o: seq<int>, base: int, i: int)
    requires 0 <= i < |o|
    ensures Redirected(m, o[..i + 1], base) ==
      if o[i] == INVALID_LPN then Redirected(m, o[..i], base) else Redirected(m, o[..i], base)[o[i] := base + i]
  {
    assert o[..i + 1][..i] == o[..i];
  }

  // One page of a header in the tables.
  ghost function Recorded(entries: seq<Entry>, redirect: map<int, int>, o: int, slot: int): seq<Entry>
    requires |entries| == LOG && 0 <= slot < LOG && (o in redirect ==> 0 <= redirect[o] < LOG)
  {
    var e := entries[slot := Entry(o, slot + LOG_START, Valid)];
    if o in redirect then e[redirect[o] := CLEARED] else e
  }

  lemma RecordedOk(entries: seq<Entry>, redirect: map<int, int>, o: int, slot: int)
    requires Bijection(entries, redirect) && 0 <= slot < LOG && entries[slot].flag != Valid
    ensures Bijection(Recorded(entries, redirect, o, slot), redirect[o := slot])
  {
  }

  // ------------------------------------------------ remapping a window

  // The home addresses whose pages lie in slots [lo, hi).
  ghost function KeysIn(redirect: map<int, int>, lo: int, hi: int): set<int> {
    set k | k in redirect && lo <= redirect[k] < hi
  }

  ghost predicate AscendingPairs(pairs: seq<(int, int)>) {
    forall i, j :: 0 <= i < j < |pairs| ==> pairs[i].1 < pairs[j].1
  }

  // `pairs` names the home addresses `ks`, in ascending order, with their slots.
  ghost predicate Names(pairs: seq<(int, int)>, redirect: map<int, int>, ks: set<int>) {
    && AscendingPairs(pairs)
    && (forall i :: 0 <= i < |pairs| ==>
          pairs[i].1 in ks && pairs[i].1 in redirect && pairs[i].0 == redirect[pairs[i].1] + LOG_START)
    && (forall k :: k in ks ==> exists i :: 0 <= i < |pairs| && pairs[i].1 == k)
  }

  function Flatten(chunks: seq<seq<(int, int)>>): seq<(int, int)> {
    if chunks == [] then [] else Flatten(chunks[..|chunks| - 1]) + chunks[|chunks| - 1]
  }

  lemma FlattenAppend(chunks: seq<seq<(int, int)>>, c: seq<(int, int)>)
    ensures Flatten(chunks + [c]) == Flatten(chunks) + c
  {
  }

  // Every command but the last one is full.
  ghost predicate Chunked(chunks: seq<seq<(int, int)>>) {
    chunks == [] || (AllFull(chunks[..|chunks| - 1]) && 0 < |chunks[|chunks| - 1]| <= MAX_REMAP_ENTRY)
  }

  ghost predicate AllFull(chunks: seq<seq<(int, int)>>) {
    forall c :: c in chunks ==> |c| == MAX_REMAP_ENTRY
  }

  // The valid slots of a window are as many as the addresses mapped there.
  lemma WindowCount(entries: seq<Entry>, redirect: map<int, int>, lo: int, hi: int)
    requires Bijection(entries, redirect) && 0 <= lo <= hi <= LOG
    ensures |ValidIn(entries, lo, hi)| == |KeysIn(redirect, lo, hi)|
  {
    var ks := KeysIn(redirect, lo, hi);
    var f := (k: int) => if k in redirect then redirect[k] else 0;
    forall j, k | j in ks && k in ks && f(j) == f(k)
      ensures j == k
    {
      assert entries[redirect[j]].o == j && entries[redirect[k]].o == k;
    }
    ImageSize(ks, f);
    forall s: int
      ensures s in ValidIn(entries, lo, hi) <==> s in Image(ks, f)
    {
      if s in ValidIn(entries, lo, hi) {
        assert f(entries[s].o) == s && entries[s].o in ks;
      }
    }
    assert ValidIn(entries, lo, hi) == Image(ks, f);
  }

  ghost function ValidIn(entries: seq<Entry>, lo: int, hi: int): set<int> {
    set s | 0 <= s < |entries| && lo <= s < hi && entries[s].flag == Valid
  }

  // The tables once the addresses `ks` have been remapped: their slots are invalid.
  ghost predicate Remapped(e0: seq<Entry>, e: seq<Entry>, redirect0: map<int, int>, redirect: map<int, int>,
                           ks: set<int>) {
    && |e| == |e0|
    && redirect == (map k | k in redirect0 && k !in ks :: redirect0[k])
    && (forall s :: 0 <= s < |e| ==>
          if exists k :: k in ks && k in redirect0 && redirect0[k] == s then e[s].flag == Invalid else e[s] == e0[s])
  }

  lemma RemappedOk(e0: seq<Entry>, e: seq<Entry>, redirect0: map<int, int>, redirect: map<int, int>, lo: int, hi: int)
    requires Bijection(e0, redirect0) && 0 <= lo <= hi <= LOG
    requires Remapped(e0, e, redirect0, redirect, KeysIn(redirect0, lo, hi))
    ensures Bijection(e, redirect)
    ensures forall s :: 0 <= s < LOG ==> (e[s].flag == Valid <==> e0[s].flag == Valid && !(lo <= s < hi))
  {
  }

  // ------------------------------------------------ the walk of __do_remap

  ghost predicate In(pairs: seq<(int, int)>, k: int) {
    exists i :: 0 <= i < |pairs| && pairs[i].1 == k
  }

  // The pairs taken so far: every address of `ks` up to `last`, in order.
  ghost predicate Taken(pairs: seq<(int, int)>, r0: map<int, int>, ks: set<int>, last: int) {
    && AscendingPairs(pairs)
    && (forall i :: 0 <= i < |pairs| ==>
          pairs[i].1 in ks && pairs[i].1 <= last && pairs[i].1 in r0 && pairs[i].0 == r0[pairs[i].1] + LOG_START)
    && (forall k :: k in ks && k <= last ==> In(pairs, k))
  }

  // Sent addresses are gone, those of the chunk being filled are marked.
  ghost predicate Marked(e0: seq<Entry>, e: seq<Entry>, r0: map<int, int>, r: map<int, int>,
                         sent: seq<(int, int)>, chunk: seq<(int, int)>) {
    && |e| == |e0| == LOG
    && r == (map k | k in r0 && !In(sent, k) :: r0[k])
    && (forall k :: k in r0 && 0 <= r0[k] < LOG ==>
          && (In(sent, k) ==> e[r0[k]].flag == Invalid)
          && (In(chunk, k) && !In(sent, k) ==> e[r0[k]] == e0[r0[k]].(flag := Flag.Remapping))
          && (!In(chunk, k) && !In(sent, k) ==> e[r0[k]] == e0[r0[k]]))
    && (forall s :: 0 <= s < LOG && e0[s].flag != Valid ==> e[s] == e0[s])
  }

  lemma TakeStep(pairs: seq<(int, int)>, r0: map<int, int>, lo: int, hi: int, last: int, k: int)
    requires Taken(pairs, r0, KeysIn(r0, lo, hi), last) && k in r0 && last < k
    requires forall j :: j in r0 && last < j < k ==> !(lo <= r0[j] < hi)
    ensures lo <= r0[k] < hi ==> Taken(pairs + [(r0[k] + LOG_START, k)], r0, KeysIn(r0, lo, hi), k)
    ensures !(lo <= r0[k] < hi) ==> Taken(pairs, r0, KeysIn(r0, lo, hi), k)
    ensures !In(pairs, k)
  {
    var pairs' := pairs + [(r0[k] + LOG_START, k)];
    assert pairs'[|pairs|].1 == k;
    forall j | In(pairs, j)
      ensures In(pairs', j)
    {
      var i :| 0 <= i < |pairs| && pairs[i].1 == j;
      assert pairs'[i].1 == j;
    }
  }

  lemma TakenCount(pairs: seq<(int, int)>, r0: map<int, int>, ks: set<int>, last: int)
    requires Taken(pairs, r0, ks, last)
    ensures |pairs| <= |ks|
    ensures |pairs| == |ks| <==> Names(pairs, r0, ks)
  {
    var a := set i | 0 <= i < |pairs| && pairs[i].1 in ks;
    CountBelow(a, |pairs|);
    var f := (i: int) => if 0 <= i < |pairs| then pairs[i].1 else 0;
    ImageSize(a, f);
    var img := Image(a, f);
    assert img <= ks;
    SubsetSize(img, ks);
    if |pairs| == |ks| {
      forall k | k in ks
        ensures exists i :: 0 <= i < |pairs| && pairs[i].1 == k
      {
        assert k in img;
      }
    }
    if Names(pairs, r0, ks) {
      forall k | k in ks
        ensures k in img
      {
        var i :| 0 <= i < |pairs| && pairs[i].1 == k;
        assert i in a && f(i) == k;
      }
      SubsetSize(ks, img);
    }
  }

  lemma InAppend(a: seq<(int, int)>, b: seq<(int, int)>, k: int)
    ensures In(a + b, k) <==> In(a, k) || In(b, k)
  {
    if In(a, k) {
      var i :| 0 <= i < |a| && a[i].1 == k;
      assert (a + b)[i].1 == k;
    }
    if In(b, k) {
      var i :| 0 <= i < |b| && b[i].1 == k;
      assert (a + b)[|a| + i].1 == k;
    }
  }

  // The end: all addresses sent.
  lemma MarkedDone(e0: seq<Entry>, e: seq<Entry>, r0: map<int, int>, r: map<int, int>, sent: seq<(int, int)>,
                   ks: set<int>)
    requires Bijection(e0, r0) && Marked(e0, e, r0, r, sent, []) && Names(sent, r0, ks)
    requires forall k :: k in ks ==> k in r0
    ensures Remapped(e0, e, r0, r, ks)
  {
  }

  // ------------------------------------------------ the log itself

  class RingLog {
    const entries: array<Entry>         // map_entries
    var redirect: map<int, int>         // redirection_map, to slots
    var startIdx: int                   // rw_log_start_idx
    var newIdx: int                     // rw_log_new_idx

    ghost predicate Sound()
      reads this, entries
    {
      && entries.Length == LOG && Bijection(entries[..], redirect) && (forall k :: k in redirect ==> 0 <= k)
      && 0 <= startIdx < LOG && 0 <= newIdx <= LOG
    }

    constructor ()
      ensures Sound() && redirect == map[] && startIdx == newIdx == 0 && Clean(entries[..], 0, 0) && fresh(entries)
    {
      entries := new Entry[LOG](_ => CLEARED);
      redirect, startIdx, newIdx := map[], 0, 0;
    }

    // The pages of a header, one by one, in the tables of do_twrite.
    method Record(o: seq<int>)
      requires Sound() && newIdx + |o| <= LOG && forall i :: 0 <= i < |o| ==> 0 <= o[i]
      requires forall s :: newIdx <= s < newIdx + |o| ==> entries[s].flag != Valid
      modifies this`redirect, this`newIdx, entries
      ensures Sound() && newIdx == old(newIdx) + |o| && redirect == Redirected(old(redirect), o, old(newIdx))
      ensures forall s :: 0 <= s < LOG && entries[s].flag == Valid ==>
        old(entries[s].flag) == Valid || old(newIdx) <= s < newIdx
    {
      var base := newIdx;
      for i := 0 to |o|
        invariant Sound() && newIdx == base && redirect == Redirected(old(redirect), o[..i], base)
        invariant forall s :: base + i <= s < base + |o| ==> entries[s].flag != Valid
        invariant forall s :: 0 <= s < LOG && entries[s].flag == Valid ==>
          old(entries[s].flag) == Valid || base <= s < base + i
      {
        RedirectedStep(old(redirect), o, base, i);
        if o[i] != INVALID_LPN {
          RecordPage(o[i], base + i);
        }
      }
      assert o[..|o|] == o;
      newIdx := base + |o|;
    }

    method RecordPage(o: int, offset: int)
      requires Sound() && 0 <= offset < LOG && entries[offset].flag != Valid && 0 <= o
      modifies this`redirect, entries
      ensures Sound() && redirect == old(redirect)[o := offset]
      ensures forall s :: 0 <= s < LOG && s != offset ==> entries[s] == old(entries[s]) || entries[s].flag == Invalid
    {
      RecordedOk(entries[..], redirect, o, offset);
      entries[offset] := Entry(o, offset + LOG_START, Valid);
      if o in redirect {
        // delete the old map entry
        var map_ := redirect[o];
        redirect := map k | k in redirect && k != o :: redirect[k];
        entries[map_] := CLEARED;
      }
      assert entries[..] == Recorded(old(entries[..]), old(redirect), o, offset);
      redirect := redirect[o := offset];
      assert redirect == old(redirect)[o := offset];
    }

    // The next home address in the order of the map.
    method NextKey(last: int) returns (k: int, found: bool)
      ensures found ==> k in redirect && k > last && forall j :: j in redirect && j > last ==> k <= j
      ensures !found ==> forall j :: j in redirect ==> j <= last
    {
      var rest := set j | j in redirect && j > last;
      found, k := false, last;
      while rest != {}
        invariant forall j :: j in redirect && j > last && j !in rest ==> found && k <= j
        invariant forall j :: j in rest ==> j in redirect && j > last
        invariant found ==> k in redirect && k > last
        decreases rest
      {
        var j :| j in rest;
        if !found || j < k {
          k, found := j, true;
        }
        rest := rest - {j};
      }
    }

    // One remap command has been sent: its addresses leave the map and its
    // slots become invalid.
    method Retire(chunk: seq<(int, int)>)
      requires entries.Length == LOG
      requires forall i :: 0 <= i < |chunk| ==> 0 <= chunk[i].0 - LOG_START < LOG
      modifies this`redirect, entries
      ensures redirect == (map k | k in old(redirect) && (forall i :: 0 <= i < |chunk| ==> chunk[i].1 != k) ::
        old(redirect)[k])
      ensures forall s :: 0 <= s < LOG ==>
        if exists i :: 0 <= i < |chunk| && chunk[i].0 - LOG_START == s then entries[s].flag == Invalid
          else entries[s] == old(entries[s])
    {
      for i := 0 to |chunk|
        invariant redirect == (map k | k in old(redirect) && (forall j :: 0 <= j < i ==> chunk[j].1 != k) ::
          old(redirect)[k])
        invariant forall s :: 0 <= s < LOG ==>
          if exists j :: 0 <= j < i && chunk[j].0 - LOG_START == s then entries[s].flag == Invalid
            else entries[s] == old(entries[s])
      {
        var offset := chunk[i].0 - LOG_START;
        redirect := map k | k in redirect && k != chunk[i].1 :: redirect[k];
        entries[offset] := entries[offset].(flag := Invalid);
      }
    }

    method CountValid(lo: int, hi: int) returns (cnt: int)
      requires Sound() && 0 <= lo <= hi <= LOG
      ensures cnt == |KeysIn(redirect, lo, hi)|
    {
      cnt := 0;
      for i := lo to hi
        invariant cnt == |ValidIn(entries[..], lo, i)|
      {
        assert ValidIn(entries[..], lo, i + 1)
          == ValidIn(entries[..], lo, i) + (if entries[i].flag == Valid then {i} else {});
        if entries[i].flag == Valid {
          cnt := cnt + 1;
        }
      }
      WindowCount(entries[..], redirect, lo, hi);
    }

    // A page of the window joins the command being filled.
    method Mark(k: int, ghost e0: seq<Entry>, ghost r0: map<int, int>, ghost sent: seq<(int, int)>,
                chunk: seq<(int, int)>)
        returns (chunk': seq<(int, int)>)
      requires entries.Length == LOG && Bijection(e0, r0) && Marked(e0, entries[..], r0, redirect, sent, chunk)
      requires k in r0 && k in redirect && redirect[k] == r0[k] && !In(sent, k) && !In(chunk, k)
      modifies entries
      ensures chunk' == chunk + [(r0[k] + LOG_START, k)] && Marked(e0, entries[..], r0, redirect, sent, chunk')
    {
      var slot := redirect[k];
      chunk' := chunk + [(slot + LOG_START, k)];
      ghost var e := entries[..];
      assert e0[r0[k]].flag == Valid && e[r0[k]] == e0[r0[k]];
      entries[slot] := entries[slot].(flag := Flag.Remapping);
      assert entries[..] == e[slot := e[slot].(flag := Flag.Remapping)];
      forall j
        ensures In(chunk', j) <==> In(chunk, j) || j == k
      {
        InAppend(chunk, [(slot + LOG_START, k)], j);
        assert [(slot + LOG_START, k)][0].1 == k;
      }
    }

    // The command is sent and its addresses retired.
    method Send(chunk: seq<(int, int)>, ghost e0: seq<Entry>, ghost r0: map<int, int>, ghost sent: seq<(int, int)>)
      requires entries.Length == LOG && Bijection(e0, r0) && Marked(e0, entries[..], r0, redirect, sent, chunk)
      requires forall i :: 0 <= i < |chunk| ==> chunk[i].1 in r0 && chunk[i].0 == r0[chunk[i].1] + LOG_START
      modifies this`redirect, entries
      ensures Marked(e0, entries[..], r0, redirect, sent + chunk, [])
    {
      ghost var e := entries[..];
      forall i | 0 <= i < |chunk|
        ensures 0 <= chunk[i].0 - LOG_START < LOG && e0[chunk[i].0 - LOG_START] == Entry(chunk[i].1, chunk[i].0, Valid)
      {
        var k := chunk[i].1;
        assert k in r0 && 0 <= r0[k] < LOG && e0[r0[k]] == Entry(k, r0[k] + LOG_START, Valid);
      }
      Retire(chunk);
      forall k
        ensures In(sent + chunk, k) <==> In(sent, k) || In(chunk, k)
      {
        InAppend(sent, chunk, k);
      }
      forall k | k in r0
        ensures In(chunk, k) ==> entries[r0[k]].flag == Invalid
        ensures !In(chunk, k) ==> entries[r0[k]] == e[r0[k]]
      {
        if In(chunk, k) {
          var i :| 0 <= i < |chunk| && chunk[i].1 == k;
          assert chunk[i].0 - LOG_START == r0[k];
        } else {
          forall i | 0 <= i < |chunk|
            ensures chunk[i].0 - LOG_START != r0[k]
          {
            assert e0[r0[chunk[i].1]].o == chunk[i].1 && e0[r0[k]].o == k;
            assert In(chunk, chunk[i].1);
          }
        }
      }
      forall s | 0 <= s < LOG && e0[s].flag != Valid
        ensures entries[s] == e0[s]
      {
        assert forall i :: 0 <= i < |chunk| ==> chunk[i].0 - LOG_START != s;
      }
    }

    // __do_remap: the valid pages of the next `size` slots are sent to the
    // device in commands of at most 511 pairs, sorted by home address.
    method RemapWindow(size: int) returns (sent: seq<seq<(int, int)>>)
      requires Sound() && 0 < size && startIdx + size <= LOG
      modifies this`redirect, this`startIdx, entries
      ensures Sound() && Chunked(sent)
      ensures Names(Flatten(sent), old(redirect), KeysIn(old(redirect), old(startIdx), old(startIdx) + size))
      ensures Remapped(old(entries[..]), entries[..], old(redirect), redirect,
                       KeysIn(old(redirect), old(startIdx), old(startIdx) + size))
      ensures startIdx == (old(startIdx) + size
        + (if KeysIn(old(redirect), old(startIdx), old(startIdx) + size) == {} then 1 else 0)) % LOG
    {
      ghost var e0, r0 := entries[..], redirect;
      var lo, hi := startIdx, startIdx + size;
      ghost var ks := KeysIn(r0, lo, hi);
      var cnt := CountValid(lo, hi);
      sent := [];
      if cnt == 0 {
        startIdx := Wrapped(lo + size + 1);
        return;
      }
      sent := SendWindow(lo, hi, cnt);
      RemappedOk(e0, entries[..], r0, redirect, lo, hi);
      startIdx := Wrapped(hi);
    }

    // The walk over the redirection map.
    method SendWindow(lo: int, hi: int, cnt: int) returns (sent: seq<seq<(int, int)>>)
      requires Sound() && 0 <= lo < hi <= LOG && cnt == |KeysIn(redirect, lo, hi)| > 0
      requires forall k :: k in redirect ==> 0 <= k
      modifies this`redirect, entries
      ensures Chunked(sent) && Names(Flatten(sent), old(redirect), KeysIn(old(redirect), lo, hi))
      ensures Remapped(old(entries[..]), entries[..], old(redirect), redirect, KeysIn(old(redirect), lo, hi))
    {
      hide Marked, Taken, Bijection;
      ghost var e0, r0, ks := entries[..], redirect, KeysIn(redirect, lo, hi);
      sent := [];
      TakenNone(r0, ks);
      var chunk: seq<(int, int)> := [];
      var idx, last := 0, -1;
      MarkedStart(e0, r0);
      var k, found := NextKey(last);
      while found
        invariant entries.Length == LOG && AllFull(sent) && |chunk| <= MAX_REMAP_ENTRY
        invariant Marked(e0, entries[..], r0, redirect, Flatten(sent), chunk)
        invariant Taken(Flatten(sent) + chunk, r0, ks, last) && idx == |Flatten(sent) + chunk| < cnt
        invariant found ==> k in redirect && k > last && forall j :: j in redirect && j > last ==> k <= j
        invariant !found ==> forall j :: j in redirect ==> j <= last
        decreases Later(r0, last)
      {
        KeyFacts(e0, entries[..], r0, redirect, Flatten(sent), chunk, ks, last, k);
        TakeStep(Flatten(sent) + chunk, r0, lo, hi, last, k);
        var slot := redirect[k];
        if entries[slot].flag == Valid {
          if lo <= slot < hi {
            sent, chunk := Collect(k, sent, chunk, e0, r0);
            idx := idx + 1;
          }
          if idx == cnt {
            sent := SendLast(sent, chunk, k, e0, r0, ks);
            return;
          }
        }
        assert k in Later(r0, last) && k !in Later(r0, k);
        last := k;
        k, found := NextKey(last);
      }
      MarkedMap(e0, entries[..], r0, redirect, Flatten(sent), chunk);
      NothingLeft(r0, redirect, Flatten(sent), chunk, ks, last);
      TakenCount(Flatten(sent) + chunk, r0, ks, last);
      assert false;
    }

    // The last command.
    method SendLast(sent: seq<seq<(int, int)>>, chunk: seq<(int, int)>, ghost last: int, ghost e0: seq<Entry>,
                    ghost r0: map<int, int>, ghost ks: set<int>) returns (sent': seq<seq<(int, int)>>)
      requires entries.Length == LOG && Bijection(e0, r0) && AllFull(sent) && 0 < |chunk| <= MAX_REMAP_ENTRY
      requires Marked(e0, entries[..], r0, redirect, Flatten(sent), chunk)
      requires Taken(Flatten(sent) + chunk, r0, ks, last) && |Flatten(sent) + chunk| == |ks|
      requires forall k :: k in ks ==> k in r0
      modifies this`redirect, entries
      ensures Chunked(sent') && Names(Flatten(sent'), r0, ks) && Remapped(e0, entries[..], r0, redirect, ks)
    {
      hide Marked;
      SentFacts(Flatten(sent), chunk, r0, ks, last);
      Send(chunk, e0, r0, Flatten(sent));
      FlattenAppend(sent, chunk);
      sent' := sent + [chunk];
      assert sent'[..|sent'| - 1] == sent;
      TakenCount(Flatten(sent'), r0, ks, last);
      MarkedDone(e0, entries[..], r0, redirect, Flatten(sent'), ks);
    }

    // A page of the window; a full command is sent before.
    method Collect(k: int, sent: seq<seq<(int, int)>>, chunk: seq<(int, int)>, ghost e0: seq<Entry>,
                   ghost r0: map<int, int>)
        returns (sent': seq<seq<(int, int)>>, chunk': seq<(int, int)>)
      requires entries.Length == LOG && Bijection(e0, r0) && AllFull(sent) && |chunk| <= MAX_REMAP_ENTRY
      requires Marked(e0, entries[..], r0, redirect, Flatten(sent), chunk)
      requires k in r0 && k in redirect && redirect[k] == r0[k] && !In(Flatten(sent), k) && !In(chunk, k)
      requires forall i :: 0 <= i < |chunk| ==> chunk[i].1 in r0 && chunk[i].0 == r0[chunk[i].1] + LOG_START
      modifies this`redirect, entries
      ensures AllFull(sent') && 0 < |chunk'| <= MAX_REMAP_ENTRY
      ensures Flatten(sent') + chunk' == Flatten(sent) + chunk + [(r0[k] + LOG_START, k)]
      ensures Marked(e0, entries[..], r0, redirect, Flatten(sent'), chunk')
    {
      hide Marked;
      sent', chunk' := sent, chunk;
      MarkedMap(e0, entries[..], r0, redirect, Flatten(sent), chunk);
      if |chunk'| == MAX_REMAP_ENTRY {
        // the command is full: send it and begin another
        Send(chunk', e0, r0, Flatten(sent'));
        FlattenAppend(sent', chunk');
        InAppend(Flatten(sent), chunk, k);
        sent' := sent' + [chunk'];
        chunk' := [];
      }
      chunk' := Mark(k, e0, r0, Flatten(sent'), chunk');
    }

    // do_remap
    method DoRemap() returns (rtn: int, sent: seq<seq<(int, int)>>)
      requires Sound() && Clean(entries[..], startIdx, newIdx)
      modifies this`redirect, this`startIdx, entries
      ensures Sound() && rtn == if Used(old(startIdx), newIdx) > REMAP_THRESHOLD then 0 else 1
      ensures rtn != 0 ==> redirect == old(redirect) && startIdx == old(startIdx) && entries[..] == old(entries[..])
      ensures rtn == 0 ==> WindowSent(sent)
    {
      hide Clean, KeysIn, Names, Chunked, Flatten, Wrapped, Used, Chosen;
      ghost var e0, r0, lo := entries[..], redirect, startIdx;
      rtn, sent := 1, [];
      if Used(startIdx, newIdx) > REMAP_THRESHOLD {
        ChosenSafe(startIdx, newIdx);
        var size := Chosen(startIdx, newIdx);
        sent := RemapWindow(size);
        RemappedOk(e0, entries[..], r0, redirect, lo, lo + size);
        RemapClean(e0, entries[..], lo, newIdx, size, if KeysIn(r0, lo, lo + size) == {} then 1 else 0);
        rtn := 0;
      }
    }

    // What do_remap does above the threshold: the window's addresses are sent
    // and leave the map, and the log stays clean unless the start steps over a
    // valid page behind a window without any.
    twostate predicate WindowSent(new sent: seq<seq<(int, int)>>)
      reads this, entries
    {
      var lo, size := old(startIdx), Chosen(old(startIdx), old(newIdx));
      var ks := KeysIn(old(redirect), lo, lo + size);
      && Chunked(sent) && Names(Flatten(sent), old(redirect), ks) && newIdx == old(newIdx)
      && redirect == (map k | k in old(redirect) && k !in ks :: old(redirect)[k])
      && startIdx == (lo + size + if ks == {} then 1 else 0) % LOG && entries.Length == LOG
      && (Clean(entries[..], startIdx, newIdx) <==>
            (ks == {} ==> old(entries[..])[(lo + size) % LOG].flag != Valid))
    }

    // HOST_gen_random_workload: one header of temporary writes, or a remap when
    // the log has no room for one.  The log stays clean unless a full header
    // ends where the log starts.
    method GenWorkload(lpns: seq<int>, packing: nat)
      returns (o: seq<int>, remapped: bool, sent: seq<seq<(int, int)>>, ghost count: nat)
      requires Sound() && Clean(entries[..], startIdx, newIdx) && packing < MAX_ENTRY
      requires |lpns| > MAX_TWRITE_SECTORS && forall i :: 0 <= i < |lpns| ==> 0 <= lpns[i] < INVALID_LPN
      modifies this`redirect, this`startIdx, this`newIdx, entries
      ensures Sound() && |o| <= MAX_ENTRY
      ensures remapped <==> Cornered(old(startIdx), old(newIdx))
      ensures remapped ==> o == [] && WindowSent(sent)
      ensures !remapped ==>
        var base := Base(old(startIdx), old(newIdx));
        && startIdx == old(startIdx) && newIdx == base + |o|
        && Packed(o, lpns, base, packing, Limit(old(startIdx), old(newIdx)), count)
        && redirect == Redirected(old(redirect), o, base)
          && (|o| == MAX_ENTRY <==> packing == MAX_ENTRY - 1 && Fills(lpns, base))
        && (Clean(entries[..], startIdx, newIdx) <==>
              !(Tight(old(startIdx), old(newIdx)) && packing == MAX_ENTRY - 1 && Fills(lpns, base)))
    {
      hide Clean, Redirected, WindowSent, Slots, Fills, Bijection;
      o, remapped, sent, count := [], false, [], 0;
      var maxPacked := MAX_TWRITE;
      if newIdx >= startIdx {
        if LOG - newIdx >= MIN_LOGGING {
          maxPacked := LOG - newIdx;
          if maxPacked > MAX_TWRITE_SECTORS {
            maxPacked := MAX_TWRITE_SECTORS;
          }
        } else if startIdx >= MAX_TWRITE {
          // go to the log's beginning because enough slots are free there
          newIdx := 0;
          AtBeginning(entries[..], startIdx, old(newIdx));
        } else {
          remapped, sent := MustRemap();
          return;
        }
      } else if startIdx - newIdx >= MIN_LOGGING {
        maxPacked := startIdx - newIdx;
        if maxPacked > MAX_TWRITE {
          maxPacked := MAX_TWRITE;
        }
      } else {
        remapped, sent := MustRemap();
        return;
      }
      o, count := DoTwrite(lpns, packing, maxPacked);
    }

    // The remap the generator cannot do without.
    method MustRemap() returns (done: bool, sent: seq<seq<(int, int)>>)
      requires Sound() && Clean(entries[..], startIdx, newIdx) && Cornered(startIdx, newIdx)
      modifies this`redirect, this`startIdx, entries
      ensures Sound() && done && WindowSent(sent)
    {
      hide Clean, WindowSent;
      CorneredAbove(startIdx, newIdx);
      var rtn;
      rtn, sent := DoRemap();
      done := rtn == 0;
    }

    // do_twrite
    method DoTwrite(lpns: seq<int>, packing: nat, maxPacked: nat) returns (o: seq<int>, ghost count: nat)
      requires Sound() && Clean(entries[..], startIdx, newIdx) && |lpns| > maxPacked
      requires forall i :: 0 <= i < |lpns| ==> 0 <= lpns[i] < INVALID_LPN
      requires packing < MAX_ENTRY && MAX_ENTRY <= maxPacked
      requires newIdx + maxPacked <= if newIdx < startIdx then startIdx else LOG
      modifies this`redirect, this`newIdx, entries
      ensures Sound() && |o| <= MAX_ENTRY && newIdx == old(newIdx) + |o|
      ensures Packed(o, lpns, old(newIdx), packing, maxPacked, count)
      ensures redirect == Redirected(old(redirect), o, old(newIdx))
      ensures |o| == MAX_ENTRY <==> packing == MAX_ENTRY - 1 && Fills(lpns, old(newIdx))
      ensures Clean(entries[..], startIdx, newIdx) <==> !(startIdx - old(newIdx) == MAX_ENTRY && |o| == MAX_ENTRY)
    {
      hide Slots, Fills;
      ghost var e0, base := entries[..], newIdx;
      var drawn;
      o, drawn := PackHeader(lpns, newIdx, packing, maxPacked);
      count := drawn;
      UnpaddedDrawn(o, lpns, drawn);
      HeaderFull(lpns, base, packing, drawn);
      Record(o);
      if o != [] {
        RedirectedLast(old(redirect), o, base);
      }
    }
  }

  // A key not taken yet is mapped as at first, to a slot that is still valid.
  lemma KeyFacts(e0: seq<Entry>, e: seq<Entry>, r0: map<int, int>, r: map<int, int>,
                 sent: seq<(int, int)>, chunk: seq<(int, int)>, ks: set<int>, last: int, k: int)
    requires Bijection(e0, r0) && Marked(e0, e, r0, r, sent, chunk) && Taken(sent + chunk, r0, ks, last)
    requires k in r && k > last && forall j :: j in r && j > last ==> k <= j
    ensures k in r0 && r[k] == r0[k] && !In(sent, k) && !In(chunk, k) && 0 <= r[k] < LOG && e[r[k]].flag == Valid
    ensures forall j :: j in r0 && last < j < k ==> j !in r && !(j in ks)
    ensures forall i :: 0 <= i < |chunk| ==> chunk[i].1 in r0 && chunk[i].0 == r0[chunk[i].1] + LOG_START
  {
    var all := sent + chunk;
    forall j | j > last
      ensures !In(sent, j) && !In(chunk, j)
    {
      InAppend(sent, chunk, j);
    }
    forall i | 0 <= i < |chunk|
      ensures chunk[i] == all[|sent| + i]
    {
    }
    assert e0[r0[k]].flag == Valid;
  }

  ghost function Later(m: map<int, int>, last: int): set<int> {
    set j | j in m && j > last
  }

  lemma TakenNone(r0: map<int, int>, ks: set<int>)
    requires forall k :: k in ks ==> k in r0 && 0 <= k
    ensures Flatten([]) == [] && Taken([] + [], r0, ks, -1)
  {
  }

  lemma MarkedMap(e0: seq<Entry>, e: seq<Entry>, r0: map<int, int>, r: map<int, int>, sent: seq<(int, int)>,
                  chunk: seq<(int, int)>)
    requires Marked(e0, e, r0, r, sent, chunk)
    ensures r == (map k | k in r0 && !In(sent, k) :: r0[k])
  {
  }

  lemma SentFacts(sent: seq<(int, int)>, chunk: seq<(int, int)>, r0: map<int, int>, ks: set<int>, last: int)
    requires Taken(sent + chunk, r0, ks, last)
    ensures forall i :: 0 <= i < |chunk| ==> chunk[i].1 in r0 && chunk[i].0 == r0[chunk[i].1] + LOG_START
  {
    forall i | 0 <= i < |chunk|
      ensures chunk[i] == (sent + chunk)[|sent| + i]
    {
    }
  }

  lemma NothingLeft(r0: map<int, int>, r: map<int, int>, sent: seq<(int, int)>, chunk: seq<(int, int)>,
                    ks: set<int>, last: int)
    requires Taken(sent + chunk, r0, ks, last) && r == (map k | k in r0 && !In(sent, k) :: r0[k])
    requires forall j :: j in r ==> j <= last
    requires forall k :: k in ks ==> k in r0
    ensures Names(sent + chunk, r0, ks)
  {
    forall k | k in ks
      ensures In(sent + chunk, k)
    {
      InAppend(sent, chunk, k);
      if !In(sent, k) { assert k in r; }
    }
  }

  lemma MarkedStart(e0: seq<Entry>, r0: map<int, int>)
    requires Bijection(e0, r0)
    ensures Marked(e0, e0, r0, r0, [], [])
  {
  }

  function Wrapped(i: int): int {
    if i >= LOG then i - LOG else i
  }

  // ------------------------------------------------ the choice of the window

  // The number of slots do_remap takes: not around the ring's end.
  function Chosen(start: int, new_: int): int {
    var size := if new_ < start then LOG - start else Used(start, new_);
    if size > REMAP_SIZE then REMAP_SIZE else size
  }

  // They never wrap, and more than 4096 slots are left behind the newest one; no
  // more could be taken.
  lemma ChosenSafe(start: int, new_: int)
    requires 0 <= start < LOG && 0 <= new_ <= LOG && Used(start, new_) > REMAP_THRESHOLD
    ensures 0 < Chosen(start, new_) <= REMAP_SIZE && start + Chosen(start, new_) <= LOG
    ensures Chosen(start, new_) == REMAP_SIZE || start + Chosen(start, new_) == if new_ < start then LOG else new_
    ensures Used(start, new_) - Chosen(start, new_) > 4096
    ensures forall s :: start <= s < start + Chosen(start, new_) ==> InWindow(s, start, new_)
  {
  }

  // No room for another header, at the end of the ring or behind the start.
  predicate Cornered(start: int, new_: int) {
    if new_ >= start then LOG - new_ < MIN_LOGGING && start < MAX_TWRITE else start - new_ < MIN_LOGGING
  }

  lemma CorneredAbove(start: int, new_: int)
    requires 0 <= start < LOG && 0 <= new_ <= LOG && Cornered(start, new_)
    ensures Used(start, new_) > REMAP_THRESHOLD
  {
  }

  // A window without valid pages makes the start step one slot too far; the
  // slot stepped over is lost exactly if it holds a valid page.
  lemma RemapClean(e0: seq<Entry>, e: seq<Entry>, start: int, new_: int, size: int, skip: int)
    requires Clean(e0, start, new_) && |e| == LOG && 0 <= start < LOG && 0 <= new_ <= LOG && 0 <= skip <= 1
    requires 0 < size && start + size <= LOG && Used(start, new_) - size > 4096
    requires forall s :: 0 <= s < LOG ==> (e[s].flag == Valid <==> e0[s].flag == Valid && !(start <= s < start + size))
    ensures Wrapped(start + size) == (start + size) % LOG && Wrapped(start + size + skip) == (start + size + skip) % LOG
    ensures Clean(e, (start + size + skip) % LOG, new_) <==> (skip == 1 ==> e0[(start + size) % LOG].flag != Valid)
  {
  }

  // Where the next header goes.
  function Base(start: int, new_: int): int {
    if new_ >= start && LOG - new_ < MIN_LOGGING then 0 else new_
  }

  // How many slots a header may take: those up to the end of the ring or to the
  // start, and no more than one transfer.
  ghost function Limit(start: int, new_: int): int {
    if new_ >= start then
      if LOG - new_ < MIN_LOGGING then MAX_TWRITE
      else if LOG - new_ > MAX_TWRITE_SECTORS then MAX_TWRITE_SECTORS else LOG - new_
    else if start - new_ > MAX_TWRITE then MAX_TWRITE else start - new_
  }

  // There is room for exactly one full header.
  predicate Tight(start: int, new_: int) {
    start - Base(start, new_) == MAX_ENTRY
  }

  lemma AtBeginning(entries: seq<Entry>, start: int, new_: int)
    requires Clean(entries, start, new_) && 0 < start <= new_
    ensures Clean(entries, start, 0)
  {
  }

  // An empty log with room for 128 slots before its start: after a header of 64
  // addresses, each with a padding, it holds pages but looks empty.
  method FullLooksEmpty() returns (log: RingLog)
    ensures fresh(log) && fresh(log.entries) && log.Sound()
    ensures Used(log.startIdx, log.newIdx) == 0 && (exists k :: k in log.redirect)
    ensures !Clean(log.entries[..], log.startIdx, log.newIdx)
  {
    log := new RingLog();
    log.startIdx, log.newIdx := REMAP_SIZE, REMAP_SIZE - MAX_ENTRY;
    var lpns := seq(MAX_TWRITE_SECTORS + 1, i => 2 * i + 1);
    OddFills(lpns, log.newIdx, 63);
    var o, remapped, sent;
    ghost var count;
    o, remapped, sent, count := log.GenWorkload(lpns, MAX_ENTRY - 1);
    SomePage(log.entries[..], log.redirect, log.startIdx, log.newIdx);
  }

  lemma SomePage(entries: seq<Entry>, redirect: map<int, int>, start: int, new_: int)
    requires Bijection(entries, redirect) && !Clean(entries, start, new_)
    ensures exists k :: k in redirect
  {
    var s :| 0 <= s < LOG && entries[s].flag == Valid;
    assert entries[s].o in redirect;
  }

  lemma {:induction false} OddFills(lpns: seq<int>, base: int, k: nat)
    requires k < |lpns| && base % 2 == 0 && forall i :: 0 <= i < |lpns| ==> lpns[i] % 2 == 1
    ensures Slots(lpns, base, k) == 2 * k
  {
    if k == 0 {
    } else {
      OddFills(lpns, base, k - 1);
    }
  }

  // The only valid page lies just behind the window taken: the start steps over
  // it, and it is outside the log.
  method StepsOverPage() returns (log: RingLog)
    ensures fresh(log) && fresh(log.entries) && log.Sound()
    ensures log.startIdx == REMAP_SIZE + 1 && log.newIdx == REMAP_THRESHOLD + 1 && 5 in log.redirect
    ensures log.redirect[5] == REMAP_SIZE
    ensures !Clean(log.entries[..], log.startIdx, log.newIdx)
  {
    log := new RingLog();
    log.RecordPage(5, REMAP_SIZE);
    log.newIdx := REMAP_THRESHOLD + 1;
    assert forall s :: 0 <= s < LOG && log.entries[s].flag == Valid ==> s == REMAP_SIZE;
    var rtn, sent := log.DoRemap();
  }

  lemma UnpaddedDrawn(o: seq<int>, lpns: seq<int>, drawn: nat)
    requires drawn <= |lpns| && Unpadded(o) == lpns[..drawn] && forall i :: 0 <= i < |lpns| ==> 0 <= lpns[i]
    ensures forall i :: 0 <= i < |o| ==> 0 <= o[i]
  {
    forall i | 0 <= i < |o|
      ensures 0 <= o[i]
    {
      if o[i] != INVALID_LPN { UnpaddedIn(o, i); }
    }
  }

  lemma {:induction false} UnpaddedIn(o: seq<int>, i: int)
    requires 0 <= i < |o| && o[i] != INVALID_LPN
    ensures o[i] in Unpadded(o)
  {
    if i == |o| - 1 {
    } else {
      UnpaddedIn(o[..|o| - 1], i);
    }
  }

  lemma RedirectedLast(m: map<int, int>, o: seq<int>, base: int)
    requires o != [] && o[|o| - 1] != INVALID_LPN
    ensures o[|o| - 1] in Redirected(m, o, base) && Redirected(m, o, base)[o[|o| - 1]] == base + |o| - 1
  {
  }
}
