/** The map logs of all banks, searched bank by bank (ATLWrapper.cpp:3837-3868). */
module LogSet {
  import opened RbModel
  import opened RbTree
  import opened GcMapLog

  // No logical page is logged by two banks.
  ghost predicate KeysApart(ms: seq<map<nat, nat>>) {
    forall a, b, l :: 0 <= a < b < |ms| && l in ms[a] ==> l !in ms[b]
  }

  ghost predicate Logged(ms: seq<map<nat, nat>>, l: nat) {
    exists b :: 0 <= b < |ms| && l in ms[b]
  }

  ghost function With(m: map<nat, nat>, lpn: nat, vpn: nat): map<nat, nat> {
    m[lpn := vpn]
  }

  ghost function Dropped(ms: seq<map<nat, nat>>, bank: int, l: nat): seq<map<nat, nat>>
    requires -1 <= bank < |ms|
  {
    if bank == -1 then ms else ms[bank := ms[bank] - {l}]
  }

  class Logs {
    const logs: seq<MapLog>
    ghost const area: set<object>

    ghost predicate Valid()
      reads area
    {
      && (forall b :: 0 <= b < |logs| ==> logs[b].Repr() <= area && logs[b].Valid())
      && Apart()
    }

    ghost predicate Apart() {
      forall a, b :: 0 <= a < |logs| && 0 <= b < |logs| && a != b ==> logs[a].Repr() !! logs[b].Repr()
    }

    ghost function Maps(): seq<map<nat, nat>>
      requires Valid()
      reads area
    {
      seq(|logs|, b requires 0 <= b < |logs| && Valid() reads area => logs[b].Contents())
    }

    constructor (ls: seq<MapLog>, ghost objects: set<object>)
      requires forall b :: 0 <= b < |ls| ==> ls[b].Repr() <= objects && ls[b].Valid() && ls[b].Contents() == map[]
      requires forall a, b :: 0 <= a < |ls| && 0 <= b < |ls| && a != b ==> ls[a].Repr() !! ls[b].Repr()
      ensures Valid() && logs == ls && area == objects
      ensures Maps() == seq(|ls|, _ => map[])
    {
      logs := ls;
      area := objects;
    }

    // get_map_log
    method GetMapLog(lpn: nat) returns (bank: int, slot: int, ghost k: Path, ghost t: Tree)
      requires Valid() && lpn < TWO31
      ensures -1 <= bank < |logs|
      ensures forall b :: 0 <= b < (if bank == -1 then |logs| else bank) ==> lpn !in Maps()[b]
      ensures bank != -1 ==> Found(bank, slot, lpn, k, t)
    {
      for b := 0 to |logs|
        invariant forall c :: 0 <= c < b ==> lpn !in Maps()[c]
      {
        slot, k, t := logs[b].Search(lpn);
        if slot != NIL {
          return b, slot, k, t;
        }
      }
      bank, slot, k, t := -1, NIL, Top, Leaf;
    }

    // Slot `slot` of the bank's log, at focus (k, t) of its tree, is the entry for `lpn`.
    ghost predicate Found(bank: int, slot: int, lpn: nat, k: Path, t: Tree)
      requires Valid() && 0 <= bank < |logs|
      reads area
    {
      var log := logs[bank];
      && 0 <= slot < log.links.nodes.Length && slot in Ids(log.tree)
      && Rep(log.links.nodes[..], log.links.root, k, t) && t.Fork? && t.id == slot && Plug(k, t) == log.tree
      && log.links.nodes[slot].lpn == lpn && lpn in Maps()[bank] && Maps()[bank][lpn] == log.links.nodes[slot].vpn
    }

    method Erase(bank: nat, slot: int, lpn: nat, ghost k: Path, ghost t: Tree)
      requires Valid() && bank < |logs| && Found(bank, slot, lpn, k, t)
      modifies logs[bank].Repr()
      ensures Valid() && Maps() == old(Maps())[bank := old(Maps())[bank] - {lpn}]
      ensures slot == FirstOf(Inorder(old(logs[bank].tree))) ==>
        StaleMin(logs[bank].links.nodes[..], slot, logs[bank].tree)
    {
      hide MapLog.Valid, MapLog.Contents;
      ghost var log := logs[bank];
      FirstHasNoPrefix(log, slot, k, t);
      logs[bank].EraseEntry(slot, k, t);
    }

    // What set_vpn does to the logs: the only entry for `lpn`, if there is one,
    // is gone, and if it was the first one its stale links lead on to the next.
    twostate predicate Forgot(bank: int, slot: int, lpn: nat)
      requires old(Valid()) && Valid()
      reads area
    {
      && -1 <= bank < |logs| && Maps() == Dropped(old(Maps()), bank, lpn)
      && (forall b :: 0 <= b < |logs| ==> (lpn in old(Maps())[b] <==> b == bank))
      && (bank != -1 ==>
            var log := logs[bank];
            && slot in old(Ids(log.tree))
            && 0 <= slot < log.links.nodes.Length && old(log.links.nodes[slot].lpn) == lpn
            && (slot == FirstOf(Inorder(old(log.tree))) ==> StaleMin(log.links.nodes[..], slot, log.tree)))
    }

    method Forget(lpn: nat) returns (ghost bank: int, ghost slot: int)
      requires Valid() && KeysApart(Maps()) && lpn < TWO31
      modifies area
      ensures Valid() && Forgot(bank, slot, lpn)
    {
      hide MapLog.Valid, MapLog.Contents;
      var found, entry;
      ghost var k, t;
      found, entry, k, t := GetMapLog(lpn);
      if found != -1 {
        Erase(found, entry, lpn, k, t);
      }
      bank, slot := found, entry;
    }

    method Clear(bank: nat)
      requires Valid() && bank < |logs| && Maps()[bank] == map[]
      modifies logs[bank].Repr()
      ensures Valid() && Maps() == old(Maps())
    {
      hide MapLog.Valid, MapLog.Contents;
      assert Maps()[bank] == logs[bank].Contents();
      logs[bank].ClearRoot();
    }

    // set_map_log
    method Set(bank: nat, lpn: nat, vpn: nat)
      requires Valid() && bank < |logs| && lpn < TWO31
      requires forall l :: l in Maps()[bank] ==>
        Maps()[bank][l] % logs[bank].links.nodes.Length != vpn % logs[bank].links.nodes.Length
      modifies logs[bank].Repr()
      ensures Valid() && Maps() == old(Maps())[bank := With(old(Maps())[bank], lpn, vpn)]
    {
      hide MapLog.Valid, MapLog.Contents;
      assert Maps()[bank] == logs[bank].Contents();
      logs[bank].Set(lpn, vpn);
    }
  }

  lemma FirstHasNoPrefix(log: MapLog, slot: int, k: Path, t: Tree)
    requires log.Valid() && t.Fork? && t.id == slot && Plug(k, t) == log.tree
    ensures slot == FirstOf(Inorder(log.tree)) ==> Before(k) + Inorder(t.left) == []
  {
    hide Rep, RedBlack;
    InorderPlug(k, t);
    Regroup(Before(k), Inorder(t.left), t.id, Inorder(t.right), After(k));
    if slot == FirstOf(Inorder(log.tree)) {
      NoPrefix(log.links.nodes[..], Inorder(log.tree), Before(k) + Inorder(t.left), slot, Inorder(t.right) + After(k));
    }
  }

  lemma Regroup(a: seq<int>, b: seq<int>, x: int, c: seq<int>, d: seq<int>)
    ensures a + (b + [x] + c) + d == (a + b) + [x] + (c + d)
  {
  }

  lemma NoPrefix(n: seq<Node>, s: seq<int>, pre: seq<int>, slot: int, post: seq<int>)
    requires Ascending(n, s) && s == pre + [slot] + post && slot == FirstOf(s)
    ensures pre == []
  {
    assert s[|pre|] == slot && s[0] == slot;
  }
}
