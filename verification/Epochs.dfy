/** Epochs order journal remaps after the temporary writes that came before
    them (ATLWrapper.cpp:804-828, 956-1030). */
module Epochs {
  const MAX_EPOCH_NUMBER: int := 65536
  const NUM_MAX_REMAP: int := 128

  datatype Entry = Entry(epoch: int, id: int)

  // The distance of `epoch` from the counter, as do_remap computes it.
  function Age(counter: int, epoch: int): int {
    if epoch > counter then counter + MAX_EPOCH_NUMBER - epoch else counter - epoch
  }

  // The wrapped distance is the true one as long as that is below 65536.
  lemma AgeIsTrue(now: nat, then_: nat)
    requires then_ <= now
    ensures Age(now % MAX_EPOCH_NUMBER, then_ % MAX_EPOCH_NUMBER) == now - then_ <==> now - then_ < MAX_EPOCH_NUMBER
  {
  }

  class JournalQueue {
    var counter: int                    // epoch_number[SHRD_JN]
    var remaps: seq<Entry>              // JN_remap_list
    var twrites: seq<Entry>             // JN_twrite_list
    ghost var now: nat                  // remaps that have arrived so far
    ghost var times: seq<nat>           // what `now` was when each twrite arrived

    // The remap at position `i` was the (now - |remaps| + i)-th to arrive.
    ghost function FirstTime(): int
      reads this
    {
      now - |remaps|
    }

    ghost predicate Valid()
      reads this
    {
      && counter == now % MAX_EPOCH_NUMBER && |remaps| <= NUM_MAX_REMAP && |remaps| <= now
      && (forall i :: 0 <= i < |remaps| ==> remaps[i].epoch == (FirstTime() + i) % MAX_EPOCH_NUMBER)
      && |times| == |twrites|
      && (forall i :: 0 <= i < |twrites| ==> twrites[i].epoch == times[i] % MAX_EPOCH_NUMBER)
      && (forall i :: 0 <= i < |times| ==> FirstTime() <= times[i] <= now)
      && (forall i, j :: 0 <= i < j < |times| ==> times[i] <= times[j])
    }

    constructor ()
      ensures Valid() && remaps == [] && twrites == []
    {
      counter, remaps, twrites, now, times := 0, [], [], 0, [];
    }

    // How many queued remaps arrived before every outstanding twrite.
    ghost function Runnable(): (n: int)
      requires Valid()
      reads this
      ensures 0 <= n <= |remaps|
    {
      (if times == [] then now else times[0]) - FirstTime()
    }

    // twrite_header_handler
    method TwriteArrives(id: int)
      requires Valid()
      modifies this`twrites, this`times
      ensures Valid() && twrites == old(twrites) + [Entry(counter, id)] && times == old(times) + [now]
    {
      twrites := twrites + [Entry(counter, id)];
      times := times + [now];
    }

    // The last page of a twrite has come.
    method TwriteDone(i: nat)
      requires Valid() && i < |twrites|
      modifies this`twrites, this`times
      ensures Valid() && twrites == old(twrites)[..i] + old(twrites)[i + 1..]
      ensures times == old(times)[..i] + old(times)[i + 1..]
    {
      twrites := twrites[..i] + twrites[i + 1..];
      times := times[..i] + times[i + 1..];
    }

    // remap_handler for a journal remap, while a free entry is left.
    method RemapArrives(id: int) returns (done: seq<Entry>)
      requires Valid() && |remaps| < NUM_MAX_REMAP
      modifies this`counter, this`remaps, this`now
      ensures Valid() && now == old(now) + 1 && Runnable() == 0
      ensures done + remaps == old(remaps) + [Entry(old(counter), id)]
      ensures forall j :: 0 <= j < |times| ==> old(FirstTime()) + |done| <= times[j]
      ensures remaps == [] || exists j :: 0 <= j < |times| && times[j] <= FirstTime()
    {
      remaps := remaps + [Entry(counter, id)];
      counter := (counter + 1) % MAX_EPOCH_NUMBER;
      now := now + 1;
      done := DoRemap();
    }

    // do_remap: exactly the queued remaps that arrived before the oldest
    // outstanding twrite are executed, in order.
    method DoRemap() returns (done: seq<Entry>)
      requires Valid()
      modifies this`remaps
      ensures Valid() && Runnable() == 0
      ensures |done| == old(Runnable()) && done == old(remaps)[..old(Runnable())]
      ensures remaps == old(remaps)[old(Runnable())..]
      ensures forall j :: 0 <= j < |times| ==> old(FirstTime()) + |done| <= times[j]
    {
      done := [];
      if |remaps| == 0 {
        return;
      }
      AgeIsTrue(now, FirstTime());
      var remapSize := Age(counter, remaps[0].epoch);
      var twriteSize := 0;
      if |twrites| > 0 {
        AgeIsTrue(now, times[0]);
        twriteSize := Age(counter, twrites[0].epoch);
      }
      if twriteSize > remapSize {
        return;
      }
      for i := 0 to remapSize - twriteSize
        invariant |remaps| == |old(remaps)| - i && remaps == old(remaps)[i..] && done == old(remaps)[..i]
      {
        done := done + [remaps[0]];
        remaps := remaps[1..];
      }
    }
  }
}
