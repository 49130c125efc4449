/** The map log of one bank: a finite map from logical to virtual page numbers,
    kept in a red-black tree over the array gc_map_log (ATLWrapper.cpp:3707-3884). */
module GcMapLog {
  import opened RbModel
  import opened RbTree
  import opened RbUnlinkModel

  // ------------------------------------------------ order

  const TWO31: int := 0x8000_0000
  const TWO32: int := 0x1_0000_0000

  // RSP_INT32 result = lpn - map_entry->lpn, in 32-bit arithmetic.
  function SignedDiff(a: nat, b: nat): int {
    (a - b + TWO31) % TWO32 - TWO31
  }

  // The sign of the wrapped difference tells the order exactly when the two
  // numbers are less than 2^31 apart.
  lemma SignedDiffOrder(a: nat, b: nat)
    requires a < TWO32 && b < TWO32
    ensures SignedDiff(a, b) == 0 <==> a == b
    ensures (SignedDiff(a, b) < 0 <==> a < b) <==> a == b || -TWO31 <= a - b < TWO31
  {
  }

  ghost predicate Ascending(n: seq<Node>, s: seq<int>) {
    && (forall i :: i in s ==> 0 <= i < |n| && n[i].lpn < TWO31)
    && (forall a, b :: 0 <= a < b < |s| ==> s[a] in s && s[b] in s && n[s[a]].lpn < n[s[b]].lpn)
  }

  ghost predicate AllBelow(n: seq<Node>, s: seq<int>, lpn: nat) {
    forall i :: i in s ==> 0 <= i < |n| && n[i].lpn < lpn
  }

  ghost predicate AllAbove(n: seq<Node>, s: seq<int>, lpn: nat) {
    forall i :: i in s ==> 0 <= i < |n| && n[i].lpn > lpn
  }

  lemma AscendingSplit(n: seq<Node>, a: seq<int>, x: int, b: seq<int>)
    requires Ascending(n, a + [x] + b)
    ensures 0 <= x < |n| && AllBelow(n, a, n[x].lpn) && AllAbove(n, b, n[x].lpn)
    ensures Ascending(n, a + b)
  {
    var s := a + [x] + b;
    assert s[|a|] == x && x in s;
    forall i | i in a
      ensures 0 <= i < |n| && n[i].lpn < n[x].lpn
    {
      var j :| 0 <= j < |a| && a[j] == i;
      assert s[j] == i;
    }
    forall i | i in b
      ensures 0 <= i < |n| && n[i].lpn > n[x].lpn
    {
      var j :| 0 <= j < |b| && b[j] == i;
      assert s[|a| + 1 + j] == i;
    }
    assert forall i :: i in a + b ==> i in s;
    forall c, d | 0 <= c < d < |a + b|
      ensures (a + b)[c] in a + b && (a + b)[d] in a + b && n[(a + b)[c]].lpn < n[(a + b)[d]].lpn
    {
      var c', d' := if c < |a| then c else c + 1, if d < |a| then d else d + 1;
      assert (a + b)[c] == s[c'] && (a + b)[d] == s[d'];
    }
  }

  lemma AscendingJoin(n: seq<Node>, a: seq<int>, x: int, b: seq<int>)
    requires Ascending(n, a + b) && 0 <= x < |n| && n[x].lpn < TWO31
    requires AllBelow(n, a, n[x].lpn) && AllAbove(n, b, n[x].lpn)
    ensures Ascending(n, a + [x] + b)
  {
    var s := a + [x] + b;
    assert forall i :: i in s ==> i in a + b || i == x;
    forall c, d | 0 <= c < d < |s|
      ensures s[c] in s && s[d] in s && n[s[c]].lpn < n[s[d]].lpn
    {
      if c < |a| { assert s[c] in a && (a + b)[c] == s[c]; }
      if c > |a| { assert s[c] in b && (a + b)[c - 1] == s[c]; }
      if d < |a| { assert (a + b)[d] == s[d]; }
      if d > |a| { assert s[d] in b && (a + b)[d - 1] == s[d]; }
    }
  }

  lemma AscendingSame(n: seq<Node>, n': seq<Node>, s: seq<int>)
    requires Ascending(n, s) && |n'| == |n|
    requires forall i :: i in s && 0 <= i < |n| ==> n'[i].lpn == n[i].lpn
    ensures Ascending(n', s)
  {
  }

  // ------------------------------------------------ contents

  ghost predicate Keyed(n: seq<Node>, ids: set<int>) {
    && (forall i :: i in ids ==> 0 <= i < |n|)
    && (forall i, j :: i in ids && j in ids && n[i].lpn == n[j].lpn ==> i == j)
  }

  ghost function Entries(n: seq<Node>, ids: set<int>): map<nat, nat>
    requires Keyed(n, ids)
  {
    map i | i in ids :: n[i].lpn := n[i].vpn
  }

  lemma AscendingKeyed(n: seq<Node>, t: Tree)
    requires Ascending(n, Inorder(t))
    ensures Keyed(n, Ids(t))
  {
    InorderIds(t);
    forall i, j | i in Ids(t) && j in Ids(t) && n[i].lpn == n[j].lpn
      ensures i == j
    {
      var a :| 0 <= a < |Inorder(t)| && Inorder(t)[a] == i;
      var b :| 0 <= b < |Inorder(t)| && Inorder(t)[b] == j;
    }
  }

  lemma EntriesWithout(n: seq<Node>, n': seq<Node>, ids: set<int>, x: int)
    requires Keyed(n, ids) && x in ids && |n'| == |n|
    requires forall i :: i in ids - {x} && 0 <= i < |n| ==> n'[i].lpn == n[i].lpn && n'[i].vpn == n[i].vpn
    ensures Keyed(n', ids - {x})
    ensures Entries(n', ids - {x}) == Entries(n, ids) - {n[x].lpn}
  {
  }

  lemma EntriesWith(n: seq<Node>, n': seq<Node>, ids: set<int>, x: int)
    requires Keyed(n, ids) && x !in ids && |n'| == |n| && 0 <= x < |n|
    requires forall i :: i in ids && 0 <= i < |n| ==> n'[i].lpn == n[i].lpn && n'[i].vpn == n[i].vpn
    requires forall i :: i in ids && 0 <= i < |n| ==> n[i].lpn != n'[x].lpn
    ensures Keyed(n', ids + {x})
    ensures Entries(n', ids + {x}) == Entries(n, ids)[n'[x].lpn := n'[x].vpn]
  {
  }

  // ------------------------------------------------ walking the tree

  // Keys before the focus are smaller than `lpn`, keys after it are larger.
  ghost predicate Narrowed(n: seq<Node>, k: Path, lpn: nat) {
    AllBelow(n, Before(k), lpn) && AllAbove(n, After(k), lpn)
  }

  lemma Assoc(a: seq<int>, b: seq<int>, c: seq<int>)
    ensures (a + b) + c == a + (b + c)
  {
  }

  lemma FocusSplit(k: Path, t: Tree)
    requires t.Fork?
    ensures Inorder(Plug(k, t)) == (Before(k) + Inorder(t.left)) + [t.id] + (Inorder(t.right) + After(k))
  {
    InorderPlug(k, t);
    var a, b, c, d, e := Before(k), Inorder(t.left), [t.id], Inorder(t.right), After(k);
    Assoc(a, b + c, d);
    Assoc(a, b, c);
    Assoc(a + b + c, d, e);
  }

  lemma NarrowLeft(n: seq<Node>, k: Path, t: Tree, lpn: nat)
    requires t.Fork? && Ascending(n, Inorder(Plug(k, t))) && Narrowed(n, k, lpn)
    requires 0 <= t.id < |n| && lpn < n[t.id].lpn
    ensures Narrowed(n, LeftOf(k, t.color, t.id, t.right), lpn)
  {
    var a, b := Before(k) + Inorder(t.left), Inorder(t.right) + After(k);
    FocusSplit(k, t);
    AscendingSplit(n, a, t.id, b);
    assert After(LeftOf(k, t.color, t.id, t.right)) == [t.id] + b;
  }

  lemma NarrowRight(n: seq<Node>, k: Path, t: Tree, lpn: nat)
    requires t.Fork? && Ascending(n, Inorder(Plug(k, t))) && Narrowed(n, k, lpn)
    requires 0 <= t.id < |n| && lpn > n[t.id].lpn
    ensures Narrowed(n, RightOf(k, t.color, t.left, t.id), lpn)
  {
    var a, b := Before(k) + Inorder(t.left), Inorder(t.right) + After(k);
    FocusSplit(k, t);
    AscendingSplit(n, a, t.id, b);
  }

  lemma NotThere(n: seq<Node>, k: Path, lpn: nat)
    requires Ascending(n, Inorder(Plug(k, Leaf))) && Narrowed(n, k, lpn)
    ensures forall i :: i in Ids(Plug(k, Leaf)) && 0 <= i < |n| ==> n[i].lpn != lpn
  {
    InorderPlug(k, Leaf);
    InorderIds(Plug(k, Leaf));
  }

  // rb_link_node: a red leaf in the hole.
  lemma LinkRep(n: seq<Node>, n': seq<Node>, root: int, root': int, k: Path, x: int)
    requires Rep(n, root, k, Leaf) && 0 <= x < |n| && x !in PathIds(k) && |n'| == |n|
    requires k.Top? || 0 <= k.id < |n|
    requires n'[x].parent == HoleParent(k) && n'[x].color == Red && n'[x].left == NIL && n'[x].right == NIL
    requires Relinked(n, n', root, root', k, x)
    requires forall i :: 0 <= i < |n| && i != x && i != HoleParent(k) ==> n'[i] == n[i]
    ensures Rep(n', root', k, Fork(Red, Leaf, x, Leaf))
  {
    PathFrame(n, n', root, root', k);
  }

  lemma InPlace(n: seq<Node>, root: int, k: Path, t: Tree)
    requires Rep(n, root, k, t) && t.Fork? && Ascending(n, Inorder(Plug(k, t)))
    ensures t.id in Ids(Plug(k, t)) && 0 <= t.id < |n| && n[t.id].lpn < TWO31
  {
    ZoomToTop(n, root, k, t);
    InorderIds(Plug(k, t));
  }

  lemma EntryAt(n: seq<Node>, t: Tree, x: int)
    requires Ascending(n, Inorder(t)) && x in Ids(t)
    ensures Keyed(n, Ids(t)) && 0 <= x < |n|
    ensures n[x].lpn in Entries(n, Ids(t)) && Entries(n, Ids(t))[n[x].lpn] == n[x].vpn
  {
    AscendingKeyed(n, t);
  }

  lemma RemoveAscending(n: seq<Node>, n': seq<Node>, k: Path, t: Tree, w: Tree)
    requires t.Fork? && Ascending(n, Inorder(Plug(k, t))) && SameEntries(n, n')
    requires Inorder(w) == Before(k) + Inorder(t.left) + Inorder(t.right) + After(k)
    ensures Ascending(n', Inorder(w))
  {
    var a, b := Before(k) + Inorder(t.left), Inorder(t.right) + After(k);
    FocusSplit(k, t);
    AscendingSplit(n, a, t.id, b);
    Assoc(Before(k) + Inorder(t.left), Inorder(t.right), After(k));
    AscendingSame(n, n', a + b);
  }

  lemma LinkedResult(n: seq<Node>, n': seq<Node>, k: Path, x: int, w: Tree)
    requires Ascending(n, Inorder(Plug(k, Leaf))) && |n'| == |n| && 0 <= x < |n| && x !in Ids(Plug(k, Leaf))
    requires forall i :: 0 <= i < |n| ==> n'[i].lpn == n[i].lpn && n'[i].vpn == n[i].vpn
    requires n[x].lpn < TWO31 && Narrowed(n, k, n[x].lpn)
    requires Inorder(w) == Inorder(Plug(k, Fork(Red, Leaf, x, Leaf))) && Ids(w) == Ids(Plug(k, Leaf)) + {x}
    ensures Ascending(n', Inorder(w))
    ensures Keyed(n, Ids(Plug(k, Leaf))) && Keyed(n', Ids(w))
    ensures Entries(n', Ids(w)) == Entries(n, Ids(Plug(k, Leaf)))[n[x].lpn := n[x].vpn]
  {
    InorderPlug(k, Leaf);
    InorderPlug(k, Fork(Red, Leaf, x, Leaf));
    assert Before(k) + Inorder(Leaf) + After(k) == Before(k) + After(k);
    assert Inorder(Fork(Red, Leaf, x, Leaf)) == [x];
    AscendingJoin(n, Before(k), x, After(k));
    AscendingSame(n, n', Inorder(w));
    NotThere(n, k, n[x].lpn);
    AscendingKeyed(n, Plug(k, Leaf));
    EntriesWith(n, n', Ids(Plug(k, Leaf)), x);
  }

  lemma LeafFocus(k: Path)
    requires RedBlack(Plug(k, Leaf))
    ensures forall x :: RedFocus(k, Fork(Red, Leaf, x, Leaf))
  {
    UnplugOk(k, Leaf);
  }

  // ------------------------------------------------ iteration

  // Where the leftmost node of the focus is.
  ghost function MinPath(k: Path, t: Tree): (Path, Tree)
    requires t.Fork?
    decreases t
  {
    if t.left.Leaf? then (k, t) else MinPath(LeftOf(k, t.color, t.id, t.right), t.left)
  }

  lemma {:induction false} MinPathFacts(n: seq<Node>, root: int, k: Path, t: Tree)
    requires t.Fork? && Rep(n, root, k, t)
    ensures var (f, s) := MinPath(k, t);
      Rep(n, root, f, s) && s.Fork? && s.left.Leaf? && Plug(f, s) == Plug(k, t) && Before(f) == Before(k)
      && Inorder(s) + After(f) == Inorder(t) + After(k)
    decreases t
  {
    if t.left.Leaf? {
    } else {
      ZoomLeft(n, root, k, t);
      DescendOrder(k, t);
      MinPathFacts(n, root, LeftOf(k, t.color, t.id, t.right), t.left);
    }
  }

  ghost function FirstOf(s: seq<int>): int {
    if s == [] then NIL else s[0]
  }

  // A node that was the first of the tree before it was erased still points
  // at the new first: its right child if it has one, else its parent.
  ghost predicate StaleMin(n: seq<Node>, x: int, t: Tree) {
    && 0 <= x < |n| && x !in Ids(t) && n[x].parent != x
    && FirstOf(Inorder(t)) == if n[x].right != NIL then n[x].right else n[x].parent
  }

  lemma EraseMinStale(n: seq<Node>, n': seq<Node>, root: int, k: Path, t: Tree, w: Tree)
    requires Rep(n, root, k, t) && t.Fork? && RedBlack(Plug(k, t)) && 0 <= t.id < |n| && |n'| == |n|
    requires Before(k) + Inorder(t.left) == []
    requires Inorder(w) == Before(k) + Inorder(t.left) + Inorder(t.right) + After(k) && t.id !in Ids(w)
    requires n'[t.id] == n[t.id]
    ensures StaleMin(n', t.id, w)
  {
    FocusFacts(n, root, k, t);
    MinIsLeftmost(k, t);
    Assoc(Before(k) + Inorder(t.left), Inorder(t.right), After(k));
    assert Inorder(w) == Inorder(t.right) + After(k);
    if t.right.Fork? {
      LoneRight(k, t);
    }
  }

  // The leftmost node's right subtree is at most one node.
  lemma LoneRight(k: Path, t: Tree)
    requires t.Fork? && t.left.Leaf? && t.right.Fork? && RedBlack(Plug(k, t))
    ensures t.right.left.Leaf?
    ensures (Inorder(t.right) + After(k))[0] == t.right.id
  {
    UnplugOk(k, t);
    BlackHeightZero(t.right);
    assert Inorder(t.right)[0] == t.right.id;
  }

  lemma BlackHeightZero(t: Tree)
    requires t.Fork? && Balanced(t) && NoRedRed(t) && BlackHeight(t) == 0
    ensures t.left.Leaf? && t.right.Leaf?
  {
  }

  lemma MinIsLeftmost(k: Path, t: Tree)
    requires t.Fork? && Before(k) + Inorder(t.left) == []
    ensures t.left.Leaf? && !k.RightOf? && HoleParent(k) == FirstOf(After(k))
  {
  }

  // A slot whose page is not in the log is not in the tree.
  lemma FreshSlot(n: seq<Node>, t: Tree, offset: int, e: map<nat, nat>)
    requires Ascending(n, Inorder(t)) && |n| > 0
    requires forall i :: i in Ids(t) && 0 <= i < |n| ==> n[i].vpn % |n| == i
    requires Keyed(n, Ids(t)) && e == Entries(n, Ids(t))
    requires forall l :: l in e ==> e[l] % |n| != offset
    ensures offset !in Ids(t)
  {
    forall i | i in Ids(t)
      ensures i != offset
    {
      EntryAt(n, t, i);
    }
  }

  lemma Reinserted(m: map<nat, nat>, l: nat, v: nat)
    ensures (m - {l})[l := v] == m[l := v]
  {
  }

  lemma FillKeeps(n: seq<Node>, root: int, t: Tree, x: int, lpn: nat, vpn: nat)
    requires Rep(n, root, Top, t) && Ascending(n, Inorder(t)) && 0 <= x < |n| && x !in Ids(t)
    ensures var n' := n[x := n[x].(lpn := lpn, vpn := vpn)];
      && Rep(n', root, Top, t) && Ascending(n', Inorder(t))
      && Keyed(n, Ids(t)) && Keyed(n', Ids(t)) && Entries(n', Ids(t)) == Entries(n, Ids(t))
  {
    var n' := n[x := n[x].(lpn := lpn, vpn := vpn)];
    ShapeRoot(n, NIL, root, t);
    ShapeFrame(n, n', NIL, NIL, root, t);
    InorderIds(t);
    AscendingSame(n, n', Inorder(t));
    AscendingKeyed(n, t);
    AscendingKeyed(n', t);
    var a, b := Entries(n', Ids(t)), Entries(n, Ids(t));
    forall l | l in a
      ensures l in b && a[l] == b[l]
    {
      var i :| i in Ids(t) && n'[i].lpn == l;
      assert n[i].lpn == l && a[l] == n'[i].vpn;
    }
    forall l | l in b
      ensures l in a
    {
      var i :| i in Ids(t) && n[i].lpn == l;
      assert n'[i].lpn == l;
    }
  }

  lemma RestInTree(n: seq<Node>, root: int, live: bool, k: Path, t: Tree, w: Tree)
    requires Rep(n, root, Top, w)
    requires live ==> Plug(k, t) == w && t.Fork?
    ensures live ==> forall i :: i in Inorder(t.right) + After(k) ==> i in Ids(w)
    ensures forall i :: i in Inorder(w) ==> i in Ids(w)
    ensures forall i :: i in Ids(w) ==> 0 <= i < |n|
  {
    InorderIds(w);
    IdsInRange(n, NIL, root, w);
    if live {
      FocusSplit(k, t);
    }
  }

  // No node of the tree points at one outside it.
  lemma StaleApart(n: seq<Node>, root: int, w: Tree, x: int)
    requires Rep(n, root, Top, w) && x !in Ids(w) && x != NIL
    ensures forall i :: i in Ids(w) ==> 0 <= i < |n| && n[i].right != x
  {
    IdsInRange(n, NIL, root, w);
    ShapeConsistent(n, NIL, root, w);
  }

  class MapLog {
    const links: Links
    ghost var tree: Tree

    // gc_map_log[offset], the slots being numbered by the low part of the vpn.
    ghost predicate Valid()
      reads this, links, links.nodes
    {
      && links.nodes.Length > 0
      && Rep(links.nodes[..], links.root, Top, tree)
      && RedBlack(tree)
      && Ascending(links.nodes[..], Inorder(tree))
      && forall i :: i in Ids(tree) && 0 <= i < links.nodes.Length ==> links.nodes[i].vpn % links.nodes.Length == i
    }

    ghost function Repr(): set<object> {
      {this, links, links.nodes}
    }

    ghost function Contents(): map<nat, nat>
      requires Valid()
      reads this, links, links.nodes
    {
      AscendingKeyed(links.nodes[..], tree);
      Entries(links.nodes[..], Ids(tree))
    }

    constructor (slots: nat)
      requires slots > 0
      ensures Valid() && Contents() == map[] && links.nodes.Length == slots && fresh(links) && fresh(links.nodes)
    {
      links := new Links(slots);
      tree := Leaf;
    }

    // log_map_search
    method Search(lpn: nat) returns (slot: int, ghost k: Path, ghost t: Tree)
      requires Valid() && lpn < TWO31
      ensures slot == NIL <==> lpn !in Contents()
      ensures slot != NIL ==> Rep(links.nodes[..], links.root, k, t) && t.Fork? && t.id == slot && Plug(k, t) == tree
      ensures slot != NIL ==> 0 <= slot < links.nodes.Length && slot in Ids(tree) && links.nodes[slot].lpn == lpn
      ensures slot != NIL ==> Contents()[lpn] == links.nodes[slot].vpn
    {
      ghost var n := links.nodes[..];
      AscendingKeyed(n, tree);
      var node := links.root;
      k, t := Top, tree;
      Surroundings(n, links.root, k, t);
      while node != NIL
        invariant Rep(n, links.root, k, t) && Plug(k, t) == tree && Narrowed(n, k, lpn)
        invariant node == HolePtr(n, links.root, k) && (t.Leaf? <==> node == NIL)
        invariant t.Fork? ==> 0 <= node < |n| && t.id == node
        decreases t
      {
        FocusFacts(n, links.root, k, t);
        InPlace(n, links.root, k, t);
        SignedDiffOrder(lpn, n[node].lpn);
        var result := SignedDiff(lpn, links.nodes[node].lpn);
        if result < 0 {
          NarrowLeft(n, k, t, lpn);
          ZoomLeft(n, links.root, k, t);
          k, t := LeftOf(k, t.color, t.id, t.right), t.left;
          node := links.nodes[node].left;
        } else if result > 0 {
          NarrowRight(n, k, t, lpn);
          ZoomRight(n, links.root, k, t);
          k, t := RightOf(k, t.color, t.left, t.id), t.right;
          node := links.nodes[node].right;
        } else {
          EntryAt(n, tree, node);
          return node, k, t;
        }
        Surroundings(n, links.root, k, t);
      }
      NotThere(n, k, lpn);
      slot := NIL;
    }

    // rb_erase of an entry found by Search.
    method EraseEntry(slot: int, ghost k: Path, ghost t: Tree)
      requires Valid() && Rep(links.nodes[..], links.root, k, t) && t.Fork? && t.id == slot && Plug(k, t) == tree
      requires 0 <= slot < links.nodes.Length
      modifies this`tree, links, links.nodes
      ensures Valid() && Contents() == old(Contents()) - {old(links.nodes[slot].lpn)}
      ensures slot in old(Ids(tree)) && Ids(tree) == old(Ids(tree)) - {slot}
      ensures Inorder(tree) == Before(k) + Inorder(t.left) + Inorder(t.right) + After(k)
      ensures links.nodes[slot] == old(links.nodes[slot])
      ensures SameEntries(old(links.nodes[..]), links.nodes[..])
      ensures Before(k) + Inorder(t.left) == [] ==> StaleMin(links.nodes[..], slot, tree)
    {
      ghost var n := links.nodes[..];
      ghost var w0 := tree;
      AscendingKeyed(n, w0);
      ZoomToTop(n, links.root, k, t);
      tree := links.Erase(slot, k, t);
      ghost var n' := links.nodes[..];
      RemoveAscending(n, n', k, t, tree);
      AscendingKeyed(n', tree);
      EntriesWithout(n, n', Ids(w0), slot);
      if Before(k) + Inorder(t.left) == [] {
        EraseMinStale(n, n', old(links.root), k, t, tree);
      }
    }

    // log_map_remove
    method Remove(lpn: nat)
      requires Valid() && lpn < TWO31
      modifies this`tree, links, links.nodes
      ensures Valid() && Contents() == old(Contents()) - {lpn}
    {
      var slot;
      ghost var k, t;
      slot, k, t := Search(lpn);
      if slot != NIL {
        EraseEntry(slot, k, t);
      }
    }

    // log_map_insert: an entry for the same lpn is erased first.
    method Insert(slot: int)
      requires Valid() && 0 <= slot < links.nodes.Length && slot !in Ids(tree)
      requires links.nodes[slot].lpn < TWO31 && links.nodes[slot].vpn % links.nodes.Length == slot
      modifies this`tree, links, links.nodes
      ensures Valid() && Contents() == old(Contents())[old(links.nodes[slot].lpn) := old(links.nodes[slot].vpn)]
      ensures SameEntries(old(links.nodes[..]), links.nodes[..])
      decreases Ids(tree)
    {
      var node, parent, left;
      ghost var k, t;
      node, parent, left, k, t := Descend(slot);
      if node != NIL {
        // it means overwrite
        ghost var before := Contents();
        EraseEntry(node, k, t);
        Insert(slot);
        Reinserted(before, links.nodes[slot].lpn, links.nodes[slot].vpn);
      } else {
        Link(slot, parent, left, k);
      }
    }

    // The descent of log_map_insert, up to an equal key or an empty link.
    method Descend(slot: int) returns (node: int, parent: int, left: bool, ghost k: Path, ghost t: Tree)
      requires Valid() && 0 <= slot < links.nodes.Length && links.nodes[slot].lpn < TWO31
      ensures Rep(links.nodes[..], links.root, k, t) && Plug(k, t) == tree
      ensures node == NIL ==> t.Leaf? && Narrowed(links.nodes[..], k, links.nodes[slot].lpn)
      ensures node == NIL ==> parent == HoleParent(k) && (!k.Top? ==> left == k.LeftOf?)
      ensures node != NIL ==> t.Fork? && t.id == node && node in Ids(tree)
      ensures node != NIL ==> 0 <= node < links.nodes.Length && links.nodes[node].lpn == links.nodes[slot].lpn
    {
      ghost var n := links.nodes[..];
      ghost var lpn := n[slot].lpn;
      k, t := Top, tree;
      node, parent, left := links.root, NIL, false;
      Surroundings(n, links.root, k, t);
      while node != NIL
        invariant Rep(n, links.root, k, t) && Plug(k, t) == tree && Narrowed(n, k, lpn)
        invariant node == HolePtr(n, links.root, k) && (t.Leaf? <==> node == NIL)
        invariant t.Fork? ==> 0 <= node < |n| && t.id == node
        invariant parent == HoleParent(k) && (!k.Top? ==> left == k.LeftOf?)
        decreases t
      {
        FocusFacts(n, links.root, k, t);
        InPlace(n, links.root, k, t);
        SignedDiffOrder(lpn, n[node].lpn);
        var result := SignedDiff(links.nodes[slot].lpn, links.nodes[node].lpn);
        parent := node;
        if result < 0 {
          NarrowLeft(n, k, t, lpn);
          ZoomLeft(n, links.root, k, t);
          k, t := LeftOf(k, t.color, t.id, t.right), t.left;
          node, left := links.nodes[node].left, true;
        } else if result > 0 {
          NarrowRight(n, k, t, lpn);
          ZoomRight(n, links.root, k, t);
          k, t := RightOf(k, t.color, t.left, t.id), t.right;
          node, left := links.nodes[node].right, false;
        } else {
          return;
        }
        Surroundings(n, links.root, k, t);
      }
    }

    method Link(slot: int, parent: int, left: bool, ghost k: Path)
      requires Valid() && 0 <= slot < links.nodes.Length && slot !in Ids(tree)
      requires links.nodes[slot].lpn < TWO31 && links.nodes[slot].vpn % links.nodes.Length == slot
      requires Rep(links.nodes[..], links.root, k, Leaf) && Plug(k, Leaf) == tree
      requires Narrowed(links.nodes[..], k, links.nodes[slot].lpn)
      requires parent == HoleParent(k) && (!k.Top? ==> left == k.LeftOf?)
      modifies this`tree, links, links.nodes
      ensures Valid() && Contents() == old(Contents())[old(links.nodes[slot].lpn) := old(links.nodes[slot].vpn)]
      ensures SameEntries(old(links.nodes[..]), links.nodes[..])
    {
      ghost var n := links.nodes[..];
      ghost var w := Hang(slot, parent, left, k);
      LinkedResult(n, links.nodes[..], k, slot, w);
      tree := w;
    }

    // rb_link_node, then rb_insert_color.
    method Hang(slot: int, parent: int, left: bool, ghost k: Path) returns (ghost w: Tree)
      requires 0 <= slot < links.nodes.Length && slot !in Ids(Plug(k, Leaf)) && RedBlack(Plug(k, Leaf))
      requires Rep(links.nodes[..], links.root, k, Leaf)
      requires parent == HoleParent(k) && (!k.Top? ==> left == k.LeftOf?)
      modifies links, links.nodes
      ensures Rep(links.nodes[..], links.root, Top, w) && RedBlack(w)
      ensures Inorder(w) == Inorder(Plug(k, Fork(Red, Leaf, slot, Leaf))) && Ids(w) == Ids(Plug(k, Leaf)) + {slot}
      ensures SameEntries(old(links.nodes[..]), links.nodes[..])
    {
      hide RedBlack, Rep, RedFocus;
      ghost var n := links.nodes[..];
      ZoomToTop(n, links.root, k, Leaf);
      Surroundings(n, links.root, k, Leaf);
      LeafFocus(k);
      links.LinkNode(slot, parent, left, k);
      LinkRep(n, links.nodes[..], old(links.root), links.root, k, slot);
      w := links.InsertColor(slot, k, Fork(Red, Leaf, slot, Leaf));
    }

    // set_map_log
    method Set(lpn: nat, vpn: nat)
      requires Valid() && lpn < TWO31
      requires forall l :: l in Contents() ==> Contents()[l] % links.nodes.Length != vpn % links.nodes.Length
      modifies this`tree, links, links.nodes
      ensures Valid() && Contents() == old(Contents())[lpn := vpn]
    {
      var offset := vpn % links.nodes.Length;
      AscendingKeyed(links.nodes[..], tree);
      FreshSlot(links.nodes[..], tree, offset, Contents());
      FillKeeps(links.nodes[..], links.root, tree, offset, lpn, vpn);
      links.nodes[offset] := links.nodes[offset].(lpn := lpn, vpn := vpn);
      Insert(offset);
    }

    // The first node holds the least key, and there is one unless the log is empty.
    lemma FirstEntry()
      requires Valid()
      ensures FirstOf(Inorder(tree)) == NIL <==> Contents() == map[]
      ensures FirstOf(Inorder(tree)) != NIL ==> IsLeast(FirstOf(Inorder(tree)))
    {
      hide Rep, RedBlack;
      var n := links.nodes[..];
      AscendingKeyed(n, tree);
      InorderIds(tree);
      if Inorder(tree) != [] {
        var x := Inorder(tree)[0];
        assert x in Ids(tree) && n[x].lpn in Contents();
        EntryAt(n, tree, x);
        forall i | i in Ids(tree)
          ensures n[x].lpn <= n[i].lpn
        {
          var a :| 0 <= a < |Inorder(tree)| && Inorder(tree)[a] == i;
        }
      }
    }

    // Node `x` holds the least logged page, and no other node holds it.
    ghost predicate IsLeast(x: int)
      requires Valid()
      reads this, links, links.nodes
    {
      && x in Ids(tree) && 0 <= x < links.nodes.Length
      && links.nodes[x].lpn in Contents() && Contents()[links.nodes[x].lpn] == links.nodes[x].vpn
      && (forall l :: l in Contents() ==> links.nodes[x].lpn <= l)
      && (forall y :: y in Ids(tree) && 0 <= y < links.nodes.Length && links.nodes[y].lpn == links.nodes[x].lpn ==>
            y == x)
    }

    // root->rb_node = NULL, once every entry is gone.
    method ClearRoot()
      requires Valid() && Contents() == map[]
      modifies links
      ensures Valid() && Contents() == map[]
    {
      FirstEntry();
      links.root := NIL;
    }

    // rb_first
    method First() returns (node: int)
      requires Valid()
      ensures node == FirstOf(Inorder(tree))
      ensures node != NIL ==> node in Ids(tree) && 0 <= node < links.nodes.Length
    {
      ghost var n := links.nodes[..];
      InorderIds(tree);
      Surroundings(n, links.root, Top, tree);
      node := links.root;
      if node != NIL {
        node := Leftmost(node, Top, tree);
      }
    }

    // Down the left links from the focus.
    method Leftmost(node0: int, ghost k: Path, ghost t: Tree) returns (node: int)
      requires Rep(links.nodes[..], links.root, k, t) && t.Fork? && t.id == node0
      ensures 0 <= node < links.nodes.Length && Inorder(t) + After(k) != [] && node == (Inorder(t) + After(k))[0]
    {
      ghost var n := links.nodes[..];
      ghost var f, s := k, t;
      node := node0;
      FocusFacts(n, links.root, f, s);
      while links.nodes[node].left != NIL
        invariant Rep(n, links.root, f, s) && s.Fork? && s.id == node && 0 <= node < |n|
        invariant Inorder(s) + After(f) == Inorder(t) + After(k)
        decreases s
      {
        ShapeRoot(n, node, n[node].left, s.left);
        DescendOrder(f, s);
        ZoomLeft(n, links.root, f, s);
        node := links.nodes[node].left;
        f, s := LeftOf(f, s.color, s.id, s.right), s.left;
      }
      FocusFacts(n, links.root, f, s);
      ShapeRoot(n, node, n[node].left, s.left);
      assert Inorder(s)[0] == node;
    }

    // rb_next, for a node of the tree (`live`), whose successor it returns,
    // and for the former first node just after its erasure.
    method Next(node: int, ghost live: bool, ghost k: Path, ghost t: Tree) returns (next: int)
      requires Valid() && 0 <= node < links.nodes.Length
      requires live ==> Rep(links.nodes[..], links.root, k, t) && Plug(k, t) == tree && t.Fork? && t.id == node
      requires !live ==> StaleMin(links.nodes[..], node, tree)
      ensures live ==> next == FirstOf(Inorder(t.right) + After(k))
      ensures !live ==> next == FirstOf(Inorder(tree))
      ensures next != NIL ==> next in Ids(tree) && 0 <= next < links.nodes.Length
    {
      ghost var n := links.nodes[..];
      ghost var rest := if live then Inorder(t.right) + After(k) else Inorder(tree);
      if live { FocusFacts(n, links.root, k, t); }
      RestInTree(n, links.root, live, k, t, tree);
      if links.nodes[node].parent == node {
        return NIL;
      }
      if links.nodes[node].right != NIL {
        next := NextDown(node, live, k, t);
      } else {
        next := NextUp(node, live, k, t);
      }
    }

    method NextDown(node: int, ghost live: bool, ghost k: Path, ghost t: Tree) returns (next: int)
      requires Valid() && 0 <= node < links.nodes.Length && links.nodes[node].right != NIL
      requires live ==> Rep(links.nodes[..], links.root, k, t) && Plug(k, t) == tree && t.Fork? && t.id == node
      requires !live ==> StaleMin(links.nodes[..], node, tree)
      ensures next == FirstOf(if live then Inorder(t.right) + After(k) else Inorder(tree))
    {
      ghost var n := links.nodes[..];
      ghost var f, s;
      if live {
        FocusFacts(n, links.root, k, t);
        ShapeRoot(n, node, n[node].right, t.right);
        ZoomRight(n, links.root, k, t);
        f, s := RightOf(k, t.color, t.left, t.id), t.right;
      } else {
        MinPathFacts(n, links.root, Top, tree);
        f, s := MinPath(Top, tree).0, MinPath(Top, tree).1;
        assert Inorder(s)[0] == s.id;
        assert (Inorder(s) + After(f))[0] == s.id;
        assert Inorder(tree) + After(Top) == Inorder(tree);
      }
      next := Leftmost(links.nodes[node].right, f, s);
    }

    method NextUp(node: int, ghost live: bool, ghost k: Path, ghost t: Tree) returns (next: int)
      requires Valid() && 0 <= node < links.nodes.Length && links.nodes[node].right == NIL
      requires live ==> Rep(links.nodes[..], links.root, k, t) && Plug(k, t) == tree && t.Fork? && t.id == node
      requires !live ==> StaleMin(links.nodes[..], node, tree)
      ensures next == FirstOf(if live then Inorder(t.right) + After(k) else Inorder(tree))
    {
      ghost var n := links.nodes[..];
      ghost var f, s := k, t;
      var at := node;
      next := links.nodes[at].parent;
      if live {
        FocusFacts(n, links.root, k, t);
        ShapeRoot(n, node, n[node].right, t.right);
        if !f.Top? { HoleSide(n, links.root, f, s); }
      } else {
        assert next == NIL || (0 <= next < |n| && n[next].right != node) by {
          RestInTree(n, links.root, false, k, t, tree);
          StaleApart(n, links.root, tree, node);
        }
      }
      while next != NIL && at == links.nodes[next].right
        invariant next == NIL || 0 <= next < |n|
        invariant live ==> Rep(n, links.root, f, s) && s.Fork? && s.id == at && next == HoleParent(f)
        invariant live ==> After(f) == After(k) && (!f.Top? ==> (n[f.id].right == at <==> f.RightOf?))
        invariant !live ==> at == node && next == FirstOf(Inorder(tree)) && (next != NIL ==> n[next].right != node)
        decreases f
      {
        ZoomOut(n, links.root, f, s);
        Surroundings(n, links.root, f, s);
        at := next;
        next := links.nodes[at].parent;
        s := Attach(f, s);
        f := f.up;
        FocusFacts(n, links.root, f, s);
        if !f.Top? { HoleSide(n, links.root, f, s); }
      }
    }
  }
}
