/** The shape of the map log's red-black tree (ATLWrapper.h:119-136).

    A `log_map` entry lives in the array `gc_map_log`, so a node pointer is an
    index into that array and the null pointer is `NIL`.  The parent link and
    the colour, packed in one word by the source, are separate fields here.

    `Tree` is the mathematical tree a root pointer stands for.  `Path` is a tree
    with one subtree missing (the hole): the rebalancing loops walk along
    parent links, and a path is what they have above them. */
module RbModel {
  const NIL: int := -1

  datatype Color = Red | Black

  datatype Node = Node(parent: int, color: Color, left: int, right: int, lpn: nat, vpn: nat)

  datatype Tree = Leaf | Fork(color: Color, left: Tree, id: int, right: Tree)

  datatype Path =
    | Top
    | LeftOf(up: Path, color: Color, id: int, right: Tree)
    | RightOf(up: Path, color: Color, left: Tree, id: int)

  // ---------------------------------------------------------------- shape

  ghost function Ids(t: Tree): set<int> {
    match t
    case Leaf => {}
    case Fork(_, l, x, r) => Ids(l) + {x} + Ids(r)
  }

  ghost predicate Distinct(t: Tree) {
    match t
    case Leaf => true
    case Fork(_, l, x, r) =>
      && Distinct(l) && Distinct(r)
      && x !in Ids(l) && x !in Ids(r) && Ids(l) !! Ids(r)
  }

  ghost function PathIds(k: Path): set<int> {
    match k
    case Top => {}
    case LeftOf(up, _, x, r) => PathIds(up) + {x} + Ids(r)
    case RightOf(up, _, l, x) => PathIds(up) + {x} + Ids(l)
  }

  ghost predicate PathDistinct(k: Path) {
    match k
    case Top => true
    case LeftOf(up, _, x, r) =>
      PathDistinct(up) && Distinct(r) && x !in Ids(r) && x !in PathIds(up) && Ids(r) !! PathIds(up)
    case RightOf(up, _, l, x) =>
      PathDistinct(up) && Distinct(l) && x !in Ids(l) && x !in PathIds(up) && Ids(l) !! PathIds(up)
  }

  // The pointer `x`, found in a node or root whose owner is `p`, stands for `t`.
  ghost predicate Shape(nodes: seq<Node>, p: int, x: int, t: Tree)
    decreases t
  {
    match t
    case Leaf => x == NIL
    case Fork(c, l, y, r) =>
      && x == y && 0 <= y < |nodes|
      && nodes[y].parent == p && nodes[y].color == c
      && Shape(nodes, y, nodes[y].left, l)
      && Shape(nodes, y, nodes[y].right, r)
  }

  ghost function HoleParent(k: Path): int {
    if k.Top? then NIL else k.id
  }

  // The pointer stored at the hole.
  ghost function HolePtr(nodes: seq<Node>, root: int, k: Path): int
    requires k.Top? || 0 <= k.id < |nodes|
  {
    match k
    case Top => root
    case LeftOf(_, _, x, _) => nodes[x].left
    case RightOf(_, _, _, x) => nodes[x].right
  }

  // Everything around the hole is linked up; the hole's own pointer is free.
  ghost predicate PathShape(nodes: seq<Node>, root: int, k: Path)
    decreases k
  {
    match k
    case Top => true
    case LeftOf(up, c, x, r) =>
      && 0 <= x < |nodes|
      && PathShape(nodes, root, up)
      && HolePtr(nodes, root, up) == x
      && nodes[x].parent == HoleParent(up) && nodes[x].color == c
      && Shape(nodes, x, nodes[x].right, r)
    case RightOf(up, c, l, x) =>
      && 0 <= x < |nodes|
      && PathShape(nodes, root, up)
      && HolePtr(nodes, root, up) == x
      && nodes[x].parent == HoleParent(up) && nodes[x].color == c
      && Shape(nodes, x, nodes[x].left, l)
  }

  // The whole structure, seen from the subtree `t` in the hole of `k`.
  ghost predicate Rep(nodes: seq<Node>, root: int, k: Path, t: Tree) {
    && PathShape(nodes, root, k)
    && Shape(nodes, HoleParent(k), HolePtr(nodes, root, k), t)
    && Distinct(t) && PathDistinct(k) && Ids(t) !! PathIds(k)
  }

  ghost function Plug(k: Path, t: Tree): Tree {
    match k
    case Top => t
    case LeftOf(up, c, x, r) => Plug(up, Fork(c, t, x, r))
    case RightOf(up, c, l, x) => Plug(up, Fork(c, l, x, t))
  }

  ghost function Depth(k: Path): nat {
    if k.Top? then 0 else 1 + Depth(k.up)
  }

  lemma ZoomOut(nodes: seq<Node>, root: int, k: Path, t: Tree)
    requires !k.Top? && Rep(nodes, root, k, t)
    ensures k.LeftOf? ==> Rep(nodes, root, k.up, Fork(k.color, t, k.id, k.right))
    ensures k.RightOf? ==> Rep(nodes, root, k.up, Fork(k.color, k.left, k.id, t))
  {
  }

  lemma ZoomLeft(nodes: seq<Node>, root: int, k: Path, t: Tree)
    requires t.Fork? && Rep(nodes, root, k, t)
    ensures Rep(nodes, root, LeftOf(k, t.color, t.id, t.right), t.left)
  {
  }

  lemma ZoomRight(nodes: seq<Node>, root: int, k: Path, t: Tree)
    requires t.Fork? && Rep(nodes, root, k, t)
    ensures Rep(nodes, root, RightOf(k, t.color, t.left, t.id), t.right)
  {
  }

  lemma {:induction false} ZoomToTop(nodes: seq<Node>, root: int, k: Path, t: Tree)
    requires Rep(nodes, root, k, t)
    ensures Rep(nodes, root, Top, Plug(k, t))
    ensures Ids(Plug(k, t)) == Ids(t) + PathIds(k)
    decreases k
  {
    if !k.Top? {
      ZoomOut(nodes, root, k, t);
      if k.LeftOf? {
        ZoomToTop(nodes, root, k.up, Fork(k.color, t, k.id, k.right));
      } else {
        ZoomToTop(nodes, root, k.up, Fork(k.color, k.left, k.id, t));
      }
    }
  }

  // The log entries hold the same (lpn, vpn) pairs.
  ghost predicate SameEntries(a: seq<Node>, b: seq<Node>) {
    |a| == |b| && forall i :: 0 <= i < |a| ==> a[i].lpn == b[i].lpn && a[i].vpn == b[i].vpn
  }

  // Only the nodes of `t` and of `k` differ.
  ghost predicate OnlyTouched(a: seq<Node>, b: seq<Node>, ids: set<int>) {
    |a| == |b| && forall i :: 0 <= i < |a| && i !in ids ==> a[i] == b[i]
  }

  // ---------------------------------------------------------------- frames

  // A subtree survives writes elsewhere, and a new owner of its root.
  lemma {:induction false} ShapeFrame(nodes: seq<Node>, nodes': seq<Node>, p: int, p': int, x: int, t: Tree)
    requires Shape(nodes, p, x, t) && Distinct(t)
    requires |nodes'| == |nodes|
    requires forall i :: i in Ids(t) && i != x && 0 <= i < |nodes| ==> nodes'[i] == nodes[i]
    requires t.Fork? ==> nodes'[x] == nodes[x].(parent := p')
    ensures Shape(nodes', p', x, t)
    decreases t
  {
    if t.Leaf? {
    } else {
      ShapeFrame(nodes, nodes', x, x, nodes[x].left, t.left);
      ShapeFrame(nodes, nodes', x, x, nodes[x].right, t.right);
    }
  }

  lemma {:induction false} IdsInRange(nodes: seq<Node>, p: int, x: int, t: Tree)
    requires Shape(nodes, p, x, t)
    ensures forall i :: i in Ids(t) ==> 0 <= i < |nodes|
    decreases t
  {
    if t.Leaf? {
    } else {
      IdsInRange(nodes, x, nodes[x].left, t.left);
      IdsInRange(nodes, x, nodes[x].right, t.right);
    }
  }

  // A path survives writes elsewhere and any change of the hole's pointer.
  lemma {:induction false} PathFrame(nodes: seq<Node>, nodes': seq<Node>, root: int, root': int, k: Path)
    requires PathShape(nodes, root, k) && PathDistinct(k)
    requires |nodes'| == |nodes|
    requires forall i :: i in PathIds(k) && i != HoleParent(k) && 0 <= i < |nodes| ==> nodes'[i] == nodes[i]
    requires k.LeftOf? ==> nodes'[k.id] == nodes[k.id].(left := nodes'[k.id].left)
    requires k.RightOf? ==> nodes'[k.id] == nodes[k.id].(right := nodes'[k.id].right)
    requires !k.Top? ==> root' == root
    ensures PathShape(nodes', root', k)
    decreases k
  {
    if !k.Top? {
      PathFrame(nodes, nodes', root, root', k.up);
      if k.LeftOf? {
        ShapeFrame(nodes, nodes', k.id, k.id, nodes[k.id].right, k.right);
      } else {
        ShapeFrame(nodes, nodes', k.id, k.id, nodes[k.id].left, k.left);
      }
    }
  }

  // Painting the node in focus.
  lemma Paint(nodes: seq<Node>, root: int, k: Path, t: Tree, c: Color)
    requires t.Fork? && Rep(nodes, root, k, t)
    ensures 0 <= t.id < |nodes|
    ensures Rep(nodes[t.id := nodes[t.id].(color := c)], root, k, t.(color := c))
  {
    var nodes' := nodes[t.id := nodes[t.id].(color := c)];
    PathFrame(nodes, nodes', root, root, k);
    ShapeFrame(nodes, nodes', t.id, t.id, nodes[t.id].left, t.left);
    ShapeFrame(nodes, nodes', t.id, t.id, nodes[t.id].right, t.right);
    assert Ids(t.(color := c)) == Ids(t);
  }

  // ---------------------------------------------------------------- order

  ghost function Inorder(t: Tree): seq<int> {
    match t
    case Leaf => []
    case Fork(_, l, x, r) => Inorder(l) + [x] + Inorder(r)
  }

  ghost function Before(k: Path): seq<int> {
    match k
    case Top => []
    case LeftOf(up, _, _, _) => Before(up)
    case RightOf(up, _, l, x) => Before(up) + Inorder(l) + [x]
  }

  ghost function After(k: Path): seq<int> {
    match k
    case Top => []
    case LeftOf(up, _, x, r) => [x] + Inorder(r) + After(up)
    case RightOf(up, _, _, _) => After(up)
  }

  lemma {:induction false} InorderPlug(k: Path, t: Tree)
    ensures Inorder(Plug(k, t)) == Before(k) + Inorder(t) + After(k)
    decreases k
  {
    match k
    case Top =>
    case LeftOf(up, c, x, r) =>
      InorderPlug(up, Fork(c, t, x, r));
    case RightOf(up, c, l, x) =>
      InorderPlug(up, Fork(c, l, x, t));
  }

  lemma {:induction false} InorderIds(t: Tree)
    ensures forall i :: i in Inorder(t) <==> i in Ids(t)
    decreases t
  {
    if t.Leaf? {
    } else {
      InorderIds(t.left);
      InorderIds(t.right);
    }
  }

  // ---------------------------------------------------------------- balance

  function Weight(c: Color): nat {
    if c == Black then 1 else 0
  }

  ghost function BlackHeight(t: Tree): nat {
    match t
    case Leaf => 0
    case Fork(c, l, _, _) => BlackHeight(l) + Weight(c)
  }

  ghost predicate Balanced(t: Tree) {
    match t
    case Leaf => true
    case Fork(_, l, _, r) => Balanced(l) && Balanced(r) && BlackHeight(l) == BlackHeight(r)
  }

  ghost predicate IsBlack(t: Tree) {
    t.Leaf? || t.color == Black
  }

  ghost predicate NoRedRed(t: Tree) {
    match t
    case Leaf => true
    case Fork(c, l, _, r) => NoRedRed(l) && NoRedRed(r) && (c == Red ==> IsBlack(l) && IsBlack(r))
  }

  ghost predicate RedBlack(t: Tree) {
    IsBlack(t) && Balanced(t) && NoRedRed(t)
  }

  ghost function Blacken(t: Tree): Tree {
    if t.Leaf? then t else t.(color := Black)
  }

  ghost predicate HoleUnderRed(k: Path) {
    !k.Top? && k.color == Red
  }

  // A subtree of black height `h` in the hole keeps the whole tree balanced.
  ghost predicate PathOk(k: Path, h: nat) {
    match k
    case Top => true
    case LeftOf(up, c, _, s) =>
      && Balanced(s) && NoRedRed(s) && BlackHeight(s) == h
      && (c == Red ==> IsBlack(s) && !up.Top? && up.color == Black)
      && PathOk(up, h + Weight(c))
    case RightOf(up, c, s, _) =>
      && Balanced(s) && NoRedRed(s) && BlackHeight(s) == h
      && (c == Red ==> IsBlack(s) && !up.Top? && up.color == Black)
      && PathOk(up, h + Weight(c))
  }

  lemma {:induction false} PlugOk(k: Path, t: Tree)
    requires PathOk(k, BlackHeight(t)) && Balanced(t) && NoRedRed(t)
    requires HoleUnderRed(k) ==> IsBlack(t)
    ensures Balanced(Plug(k, t)) && NoRedRed(Plug(k, t))
    ensures !k.Top? ==> Plug(k, t).Fork? && Plug(k, t).color == Black
    decreases k
  {
    match k
    case Top =>
    case LeftOf(up, c, x, s) => PlugOk(up, Fork(c, t, x, s));
    case RightOf(up, c, s, x) => PlugOk(up, Fork(c, s, x, t));
  }

  // Every subtree of a red-black tree sits in a well-balanced hole.
  lemma {:induction false} UnplugOk(k: Path, t: Tree)
    requires Balanced(Plug(k, t)) && NoRedRed(Plug(k, t)) && IsBlack(Plug(k, t))
    ensures PathOk(k, BlackHeight(t)) && Balanced(t) && NoRedRed(t)
    ensures HoleUnderRed(k) ==> IsBlack(t)
    ensures k.Top? ==> IsBlack(t)
    decreases k
  {
    match k
    case Top =>
    case LeftOf(up, c, x, s) => UnplugOk(up, Fork(c, t, x, s));
    case RightOf(up, c, s, x) => UnplugOk(up, Fork(c, s, x, t));
  }

  // ---------------------------------------------------------------- rotations

  ghost function RotLeft(t: Tree): Tree
    requires t.Fork? && t.right.Fork?
  {
    Fork(t.right.color, Fork(t.color, t.left, t.id, t.right.left), t.right.id, t.right.right)
  }

  ghost function RotRight(t: Tree): Tree
    requires t.Fork? && t.left.Fork?
  {
    Fork(t.left.color, t.left.left, t.left.id, Fork(t.color, t.left.right, t.id, t.right))
  }

  lemma RotLeftOrder(k: Path, t: Tree)
    requires t.Fork? && t.right.Fork?
    ensures Inorder(RotLeft(t)) == Inorder(t)
    ensures Inorder(Plug(k, RotLeft(t))) == Inorder(Plug(k, t))
  {
    var a, b, c := Inorder(t.left), Inorder(t.right.left), Inorder(t.right.right);
    assert Inorder(t) == a + [t.id] + (b + [t.right.id] + c);
    assert Inorder(RotLeft(t)) == (a + [t.id] + b) + [t.right.id] + c;
    assert a + [t.id] + (b + [t.right.id] + c) == (a + [t.id] + b) + [t.right.id] + c;
    InorderPlug(k, t);
    InorderPlug(k, RotLeft(t));
  }

  lemma RotRightOrder(k: Path, t: Tree)
    requires t.Fork? && t.left.Fork?
    ensures Inorder(RotRight(t)) == Inorder(t)
    ensures Inorder(Plug(k, RotRight(t))) == Inorder(Plug(k, t))
  {
    var a, b, c := Inorder(t.left.left), Inorder(t.left.right), Inorder(t.right);
    assert Inorder(t) == (a + [t.left.id] + b) + [t.id] + c;
    assert Inorder(RotRight(t)) == a + [t.left.id] + (b + [t.id] + c);
    assert (a + [t.left.id] + b) + [t.id] + c == a + [t.left.id] + (b + [t.id] + c);
    InorderPlug(k, t);
    InorderPlug(k, RotRight(t));
  }

  // The hole's pointer has become `x`, nothing else about the path has changed.
  ghost predicate Relinked(nodes: seq<Node>, nodes': seq<Node>, root: int, root': int, k: Path, x: int)
    requires |nodes'| == |nodes|
    requires k.Top? || 0 <= k.id < |nodes|
  {
    match k
    case Top => root' == x
    case LeftOf(_, _, i, _) => root' == root && nodes'[i] == nodes[i].(left := x)
    case RightOf(_, _, _, i) => root' == root && nodes'[i] == nodes[i].(right := x)
  }

  // What the pointer surgery of a left rotation amounts to.
  ghost predicate RotatedLeft(nodes: seq<Node>, nodes': seq<Node>, root: int, root': int, k: Path, x: int, y: int)
    requires |nodes'| == |nodes| && 0 <= x < |nodes| && 0 <= y < |nodes|
    requires k.Top? || 0 <= k.id < |nodes|
  {
    var b := nodes[y].left;
    && nodes'[x] == nodes[x].(parent := y, right := b)
    && nodes'[y] == nodes[y].(parent := HoleParent(k), left := x)
    && (0 <= b < |nodes| ==> nodes'[b] == nodes[b].(parent := x))
    && Relinked(nodes, nodes', root, root', k, y)
    && forall i :: 0 <= i < |nodes| && i != x && i != y && i != b && i != HoleParent(k) ==> nodes'[i] == nodes[i]
  }

  ghost predicate RotatedRight(nodes: seq<Node>, nodes': seq<Node>, root: int, root': int, k: Path, x: int, y: int)
    requires |nodes'| == |nodes| && 0 <= x < |nodes| && 0 <= y < |nodes|
    requires k.Top? || 0 <= k.id < |nodes|
  {
    var b := nodes[y].right;
    && nodes'[x] == nodes[x].(parent := y, left := b)
    && nodes'[y] == nodes[y].(parent := HoleParent(k), right := x)
    && (0 <= b < |nodes| ==> nodes'[b] == nodes[b].(parent := x))
    && Relinked(nodes, nodes', root, root', k, y)
    && forall i :: 0 <= i < |nodes| && i != x && i != y && i != b && i != HoleParent(k) ==> nodes'[i] == nodes[i]
  }

  // Both ways of hanging three subtrees on two nodes use the same nodes, once each.
  lemma RotDistinct(c: Color, d: Color, a: Tree, x: int, b: Tree, y: int, e: Tree)
    ensures Ids(Fork(c, a, x, Fork(d, b, y, e))) == Ids(Fork(d, Fork(c, a, x, b), y, e))
    ensures Distinct(Fork(c, a, x, Fork(d, b, y, e))) == Distinct(Fork(d, Fork(c, a, x, b), y, e))
  {
  }

  lemma RotLeftRep(nodes: seq<Node>, nodes': seq<Node>, root: int, root': int, k: Path, t: Tree)
    requires t.Fork? && t.right.Fork? && Rep(nodes, root, k, t)
    requires |nodes'| == |nodes| && 0 <= t.id < |nodes| && 0 <= t.right.id < |nodes|
    requires RotatedLeft(nodes, nodes', root, root', k, t.id, t.right.id)
    ensures Rep(nodes', root', k, RotLeft(t))
    ensures Ids(RotLeft(t)) == Ids(t)
    ensures forall i :: 0 <= i < |nodes| && i !in Ids(t) + PathIds(k) ==> nodes'[i] == nodes[i]
  {
    var x, y := t.id, t.right.id;
    var a, b, d := t.left, t.right.left, t.right.right;
    var u := Fork(t.color, a, x, b);
    assert Shape(nodes, x, nodes[x].right, t.right) && Distinct(t.right);
    assert Shape(nodes, y, nodes[y].left, b);
    RotDistinct(t.color, t.right.color, a, x, b, y, d);
    assert Distinct(a) && Distinct(b) && Distinct(d);
    ShapeFrame(nodes, nodes', x, x, nodes[x].left, a);
    ShapeFrame(nodes, nodes', y, x, nodes[y].left, b);
    ShapeFrame(nodes, nodes', y, y, nodes[y].right, d);
    PathFrame(nodes, nodes', root, root', k);
    assert Shape(nodes', y, x, u);
  }

  lemma RotRightRep(nodes: seq<Node>, nodes': seq<Node>, root: int, root': int, k: Path, t: Tree)
    requires t.Fork? && t.left.Fork? && Rep(nodes, root, k, t)
    requires |nodes'| == |nodes| && 0 <= t.id < |nodes| && 0 <= t.left.id < |nodes|
    requires RotatedRight(nodes, nodes', root, root', k, t.id, t.left.id)
    ensures Rep(nodes', root', k, RotRight(t))
    ensures Ids(RotRight(t)) == Ids(t)
    ensures forall i :: 0 <= i < |nodes| && i !in Ids(t) + PathIds(k) ==> nodes'[i] == nodes[i]
  {
    var x, y := t.id, t.left.id;
    var a, b, d := t.left.left, t.left.right, t.right;
    var u := Fork(t.color, b, x, d);
    assert Shape(nodes, x, nodes[x].left, t.left) && Distinct(t.left);
    assert Shape(nodes, y, nodes[y].right, b);
    RotDistinct(t.left.color, t.color, a, y, b, x, d);
    assert Distinct(a) && Distinct(b) && Distinct(d);
    ShapeFrame(nodes, nodes', x, x, nodes[x].right, d);
    ShapeFrame(nodes, nodes', y, x, nodes[y].right, b);
    ShapeFrame(nodes, nodes', y, y, nodes[y].left, a);
    PathFrame(nodes, nodes', root, root', k);
    assert Shape(nodes', y, x, u);
  }

  // The subtree at the node that owns the hole.
  ghost function Attach(k: Path, t: Tree): Tree
    requires !k.Top?
  {
    match k
    case LeftOf(_, c, x, r) => Fork(c, t, x, r)
    case RightOf(_, c, l, x) => Fork(c, l, x, t)
  }

  ghost function Sibling(k: Path): Tree
    requires !k.Top?
  {
    if k.LeftOf? then k.right else k.left
  }

  ghost function WithSibling(k: Path, s: Tree): Path
    requires !k.Top?
  {
    match k
    case LeftOf(up, c, x, _) => LeftOf(up, c, x, s)
    case RightOf(up, c, _, x) => RightOf(up, c, s, x)
  }

  ghost function WithColor(k: Path, c: Color): Path
    requires !k.Top?
  {
    match k
    case LeftOf(up, _, x, r) => LeftOf(up, c, x, r)
    case RightOf(up, _, l, x) => RightOf(up, c, l, x)
  }

  // Which side the hole is on can be read off the owner's left pointer.
  lemma HoleSide(nodes: seq<Node>, root: int, k: Path, t: Tree)
    requires !k.Top? && Rep(nodes, root, k, t)
    requires t.Fork? || Sibling(k).Fork?
    ensures 0 <= k.id < |nodes|
    ensures nodes[k.id].left == HolePtr(nodes, root, k) <==> k.LeftOf?
    ensures nodes[k.id].right == HolePtr(nodes, root, k) <==> k.RightOf?
  {
  }

  lemma ShapeRoot(nodes: seq<Node>, p: int, x: int, t: Tree)
    requires Shape(nodes, p, x, t)
    ensures x == NIL <==> t.Leaf?
    ensures t.Fork? ==>
      0 <= x < |nodes| && x == t.id && x in Ids(t) && nodes[x].color == t.color && nodes[x].parent == p
  {
  }

  // Painting the owner of the hole, and the root of its other subtree.
  lemma PaintOwner(nodes: seq<Node>, root: int, k: Path, t: Tree, c: Color)
    requires !k.Top? && Rep(nodes, root, k, t)
    ensures 0 <= k.id < |nodes|
    ensures Rep(nodes[k.id := nodes[k.id].(color := c)], root, WithColor(k, c), t)
  {
    ZoomOut(nodes, root, k, t);
    Paint(nodes, root, k.up, Attach(k, t), c);
    var nodes' := nodes[k.id := nodes[k.id].(color := c)];
    assert Attach(k, t).(color := c) == Attach(WithColor(k, c), t);
    if k.LeftOf? {
      ZoomLeft(nodes', root, k.up, Attach(WithColor(k, c), t));
    } else {
      ZoomRight(nodes', root, k.up, Attach(WithColor(k, c), t));
    }
  }

  lemma PaintSibling(nodes: seq<Node>, root: int, k: Path, t: Tree, c: Color)
    requires !k.Top? && Sibling(k).Fork? && Rep(nodes, root, k, t)
    ensures 0 <= Sibling(k).id < |nodes|
    ensures Rep(nodes[Sibling(k).id := nodes[Sibling(k).id].(color := c)], root,
                WithSibling(k, Sibling(k).(color := c)), t)
  {
    var y := Sibling(k).id;
    var k' := WithSibling(k, Sibling(k).(color := c));
    ZoomOut(nodes, root, k, t);
    if k.LeftOf? {
      ZoomRight(nodes, root, k.up, Attach(k, t));
      var m := RightOf(k.up, k.color, t, k.id);
      Paint(nodes, root, m, k.right, c);
      var nodes' := nodes[y := nodes[y].(color := c)];
      ZoomOut(nodes', root, m, k.right.(color := c));
      ZoomLeft(nodes', root, k.up, Attach(k', t));
    } else {
      ZoomLeft(nodes, root, k.up, Attach(k, t));
      var m := LeftOf(k.up, k.color, k.id, t);
      Paint(nodes, root, m, k.left, c);
      var nodes' := nodes[y := nodes[y].(color := c)];
      ZoomOut(nodes', root, m, k.left.(color := c));
      ZoomRight(nodes', root, k.up, Attach(k', t));
    }
  }

  // ---------------------------------------------------------------- insertion

  // A red node whose subtree is fine, in a hole that is fine but for the
  // colour of the hole's owner.
  ghost predicate RedFocus(k: Path, t: Tree) {
    && t.Fork? && t.color == Red && Balanced(t) && NoRedRed(t)
    && PathOk(k, BlackHeight(t))
  }

  ghost predicate RedConflict(k: Path, t: Tree) {
    RedFocus(k, t) && HoleUnderRed(k) && !k.up.Top? && k.up.color == Black
  }

  // The grandparent's subtree after the uncle has been painted black.
  ghost function Lifted(k: Path, t: Tree): Tree
    requires !k.Top? && !k.up.Top?
  {
    Attach(WithColor(WithSibling(k.up, Blacken(Sibling(k.up))), Red), Blacken(Attach(k, t)))
  }

  lemma BlackenOk(t: Tree)
    requires Balanced(t) && t.Fork? ==> Balanced(t.left) && Balanced(t.right)
    ensures Ids(Blacken(t)) == Ids(t) && Inorder(Blacken(t)) == Inorder(t)
    ensures Balanced(Blacken(t)) == Balanced(t)
    ensures NoRedRed(t) ==> NoRedRed(Blacken(t))
    ensures t.Fork? && t.color == Red ==> BlackHeight(Blacken(t)) == BlackHeight(t) + 1
  {
  }

  lemma AttachOk(k: Path, t: Tree)
    requires !k.Top? && PathOk(k, BlackHeight(t)) && Balanced(t)
    ensures Balanced(Attach(k, t)) && BlackHeight(Attach(k, t)) == BlackHeight(t) + Weight(k.color)
    ensures PathOk(k.up, BlackHeight(Attach(k, t)))
    ensures Balanced(Sibling(k)) && NoRedRed(Sibling(k)) && BlackHeight(Sibling(k)) == BlackHeight(t)
    ensures NoRedRed(t) ==> NoRedRed(Attach(WithColor(k, Black), t))
  {
  }

  lemma LiftedBalance(k: Path, t: Tree)
    requires RedConflict(k, t) && Sibling(k.up).Fork? && Sibling(k.up).color == Red
    ensures RedFocus(k.up.up, Lifted(k, t))
  {
    var p, u := Attach(k, t), Sibling(k.up);
    AttachOk(k, t);
    AttachOk(k.up, p);
    BlackenOk(p);
    BlackenOk(u);
    assert Blacken(p) == Attach(WithColor(k, Black), t);
    assert BlackHeight(Blacken(p)) == BlackHeight(Blacken(u)) == BlackHeight(t) + 1;
    assert NoRedRed(Blacken(p)) && NoRedRed(Blacken(u));
  }

  lemma LiftedOrder(k: Path, t: Tree)
    requires !k.Top? && !k.up.Top?
    ensures Inorder(Plug(k.up.up, Lifted(k, t))) == Inorder(Plug(k, t))
    ensures Ids(Lifted(k, t)) + PathIds(k.up.up) == Ids(t) + PathIds(k)
  {
    var p, u := Attach(k, t), Sibling(k.up);
    var g := Attach(k.up, p);
    assert Plug(k, t) == Plug(k.up, p) == Plug(k.up.up, g);
    assert Inorder(Blacken(p)) == Inorder(p) && Inorder(Blacken(u)) == Inorder(u);
    assert Ids(Blacken(p)) == Ids(p) && Ids(Blacken(u)) == Ids(u);
    assert Inorder(Lifted(k, t)) == Inorder(g) && Ids(Lifted(k, t)) == Ids(g);
    InorderPlug(k.up.up, g);
    InorderPlug(k.up.up, Lifted(k, t));
  }

  lemma LiftedOk(k: Path, t: Tree)
    requires RedConflict(k, t) && Sibling(k.up).Fork? && Sibling(k.up).color == Red
    ensures RedFocus(k.up.up, Lifted(k, t))
    ensures Inorder(Plug(k.up.up, Lifted(k, t))) == Inorder(Plug(k, t))
    ensures Ids(Lifted(k, t)) + PathIds(k.up.up) == Ids(t) + PathIds(k) == Ids(Attach(k, t)) + PathIds(k.up)
  {
    LiftedBalance(k, t);
    LiftedOrder(k, t);
  }

  // Sibling and focus black, owner red: the three writes of the recolouring step.
  lemma PaintFamily(nodes: seq<Node>, root: int, g: Path, p: Tree) returns (n1: seq<Node>, n2: seq<Node>, n3: seq<Node>)
    requires !g.Top? && Sibling(g).Fork? && p.Fork? && Rep(nodes, root, g, p)
    ensures 0 <= Sibling(g).id < |nodes| && 0 <= p.id < |nodes| && 0 <= g.id < |nodes|
    ensures n1 == nodes[Sibling(g).id := nodes[Sibling(g).id].(color := Black)]
    ensures n2 == n1[p.id := n1[p.id].(color := Black)]
    ensures n3 == n2[g.id := n2[g.id].(color := Red)]
    ensures Rep(n3, root, g.up, Attach(WithColor(WithSibling(g, Blacken(Sibling(g))), Red), Blacken(p)))
    ensures SameEntries(nodes, n3) && OnlyTouched(nodes, n3, Ids(p) + PathIds(g))
  {
    var u := Sibling(g);
    PaintSibling(nodes, root, g, p, Black);
    n1 := nodes[u.id := nodes[u.id].(color := Black)];
    var g1 := WithSibling(g, Blacken(u));
    Paint(n1, root, g1, p, Black);
    n2 := n1[p.id := n1[p.id].(color := Black)];
    PaintOwner(n2, root, g1, Blacken(p), Red);
    n3 := n2[g.id := n2[g.id].(color := Red)];
    ZoomOut(n3, root, WithColor(g1, Red), Blacken(p));
  }

  // The conflict moved to the outer side of the parent.
  lemma StraightenOk(k: Path, t: Tree, k': Path, t': Tree)
    requires RedConflict(k, t)
    requires k.RightOf? ==> k' == LeftOf(k.up, t.color, t.id, t.right) && t' == Fork(k.color, k.left, k.id, t.left)
    requires k.LeftOf? ==> k' == RightOf(k.up, t.color, t.left, t.id) && t' == Fork(k.color, t.right, k.id, k.right)
    ensures RedConflict(k', t')
    ensures Inorder(Plug(k', t')) == Inorder(Plug(k, t))
    ensures Ids(t') + PathIds(k') == Ids(t) + PathIds(k)
    ensures Depth(k') == Depth(k)
  {
    StraightenOrder(k, t, k', t');
    StraightenBalance(k, t, k', t');
  }

  lemma StraightenOrder(k: Path, t: Tree, k': Path, t': Tree)
    requires !k.Top? && t.Fork?
    requires k.RightOf? ==> k' == LeftOf(k.up, t.color, t.id, t.right) && t' == Fork(k.color, k.left, k.id, t.left)
    requires k.LeftOf? ==> k' == RightOf(k.up, t.color, t.left, t.id) && t' == Fork(k.color, t.right, k.id, k.right)
    ensures Inorder(Plug(k', t')) == Inorder(Plug(k, t))
    ensures Ids(t') + PathIds(k') == Ids(t) + PathIds(k)
  {
    if k.RightOf? {
      RotLeftOrder(k.up, Attach(k, t));
    } else {
      RotRightOrder(k.up, Attach(k, t));
    }
  }

  lemma StraightenBalance(k: Path, t: Tree, k': Path, t': Tree)
    requires RedConflict(k, t)
    requires k.RightOf? ==> k' == LeftOf(k.up, t.color, t.id, t.right) && t' == Fork(k.color, k.left, k.id, t.left)
    requires k.LeftOf? ==> k' == RightOf(k.up, t.color, t.left, t.id) && t' == Fork(k.color, t.right, k.id, k.right)
    ensures RedConflict(k', t')
  {
  }

  // The path above the focus after the final rotation of rb_insert_color.
  ghost function Lowered(k: Path): Path
    requires !k.Top? && !k.up.Top? && k.LeftOf? == k.up.LeftOf?
  {
    if k.LeftOf? then LeftOf(k.up.up, Black, k.id, Fork(Red, k.right, k.up.id, k.up.right))
    else RightOf(k.up.up, Black, Fork(Red, k.up.left, k.up.id, k.left), k.id)
  }

  lemma LoweredOrder(k: Path, t: Tree)
    requires !k.Top? && !k.up.Top? && k.LeftOf? == k.up.LeftOf?
    ensures Inorder(Plug(Lowered(k), t)) == Inorder(Plug(k, t))
    ensures Ids(t) + PathIds(Lowered(k)) == Ids(t) + PathIds(k)
    ensures Depth(Lowered(k)) < Depth(k)
  {
    var p := Attach(k, t);
    var g := Attach(k.up, p);
    var q := Attach(Lowered(k), t);
    assert Plug(k, t) == Plug(k.up, p) == Plug(k.up.up, g);
    assert Plug(Lowered(k), t) == Plug(k.up.up, q);
    var s := Sibling(Lowered(k));
    if k.LeftOf? {
      assert Inorder(s) == Inorder(k.right) + [k.up.id] + Inorder(k.up.right);
      assert Inorder(p) == Inorder(t) + [k.id] + Inorder(k.right);
    } else {
      assert Inorder(s) == Inorder(k.up.left) + [k.up.id] + Inorder(k.left);
      assert Inorder(p) == Inorder(k.left) + [k.id] + Inorder(t);
    }
    assert Inorder(q) == Inorder(g);
    InorderPlug(k.up.up, g);
    InorderPlug(k.up.up, q);
  }

  lemma LoweredBalance(k: Path, t: Tree)
    requires RedConflict(k, t) && k.LeftOf? == k.up.LeftOf?
    requires IsBlack(Sibling(k.up))
    ensures RedFocus(Lowered(k), t)
  {
    AttachOk(k, t);
    AttachOk(k.up, Attach(k, t));
    var s := Sibling(Lowered(k));
    assert BlackHeight(s) == BlackHeight(t) && Balanced(s) && NoRedRed(s);
  }

  lemma LoweredOk(k: Path, t: Tree)
    requires RedConflict(k, t) && k.LeftOf? == k.up.LeftOf?
    requires IsBlack(Sibling(k.up))
    ensures RedFocus(Lowered(k), t)
    ensures Inorder(Plug(Lowered(k), t)) == Inorder(Plug(k, t))
    ensures Ids(t) + PathIds(Lowered(k)) == Ids(t) + PathIds(k)
    ensures Depth(Lowered(k)) < Depth(k)
  {
    LoweredOrder(k, t);
    LoweredBalance(k, t);
  }

  // A rebalancing step: same nodes in the same order, same log entries, and
  // no node outside the structure written.
  ghost predicate Rearranged(n0: seq<Node>, k0: Path, t0: Tree, n1: seq<Node>, k1: Path, t1: Tree) {
    && Inorder(Plug(k1, t1)) == Inorder(Plug(k0, t0))
    && Ids(t1) + PathIds(k1) == Ids(t0) + PathIds(k0)
    && SameEntries(n0, n1)
    && OnlyTouched(n0, n1, Ids(t0) + PathIds(k0))
  }

  // Reading the colour of the hole's owner and of its other child.
  lemma Surroundings(nodes: seq<Node>, root: int, k: Path, t: Tree)
    requires Rep(nodes, root, k, t)
    ensures t.Leaf? <==> HolePtr(nodes, root, k) == NIL
    ensures t.Fork? ==> 0 <= t.id < |nodes| && HolePtr(nodes, root, k) == t.id
    ensures t.Fork? ==> nodes[t.id].parent == HoleParent(k) && nodes[t.id].color == t.color
    ensures !k.Top? ==> 0 <= k.id < |nodes| && nodes[k.id].color == k.color && nodes[k.id].parent == HoleParent(k.up)
    ensures k.LeftOf? ==> Shape(nodes, k.id, nodes[k.id].right, k.right)
    ensures k.RightOf? ==> Shape(nodes, k.id, nodes[k.id].left, k.left)
  {
  }

  // Once the owner is not red, painting the root black finishes the insertion.
  lemma InsertDone(k: Path, t: Tree)
    requires RedFocus(k, t) && !HoleUnderRed(k)
    ensures Plug(k, t).Fork? && RedBlack(Blacken(Plug(k, t)))
    ensures Inorder(Blacken(Plug(k, t))) == Inorder(Plug(k, t))
    ensures Ids(Blacken(Plug(k, t))) == Ids(Plug(k, t))
  {
    PlugOk(k, t);
    assert !k.Top? ==> Blacken(Plug(k, t)) == Plug(k, t);
  }

  lemma RearrangedTrans(n0: seq<Node>, k0: Path, t0: Tree, n1: seq<Node>, k1: Path, t1: Tree, n2: seq<Node>,
                        k2: Path, t2: Tree)
    requires Rearranged(n0, k0, t0, n1, k1, t1) && Rearranged(n1, k1, t1, n2, k2, t2)
    ensures Rearranged(n0, k0, t0, n2, k2, t2)
  {
  }

  // What rb_insert_color reads before it decides.
  ghost predicate FamilyView(nodes: seq<Node>, k: Path, t: Tree)
    requires RedConflict(k, t)
  {
    && 0 <= t.id < |nodes| && 0 <= k.id < |nodes| && 0 <= k.up.id < |nodes|
    && nodes[t.id].parent == k.id && nodes[k.id].parent == k.up.id
    && (nodes[k.id].left == t.id <==> k.LeftOf?)
    && (nodes[k.id].right == t.id <==> k.RightOf?)
    && (nodes[k.up.id].left == k.id <==> k.up.LeftOf?)
    && var u := if k.up.LeftOf? then nodes[k.up.id].right else nodes[k.up.id].left;
    && (u == NIL <==> Sibling(k.up).Leaf?)
    && (u != NIL ==> 0 <= u < |nodes| && u == Sibling(k.up).id && nodes[u].color == Sibling(k.up).color)
  }

  lemma ViewFamily(nodes: seq<Node>, root: int, k: Path, t: Tree)
    requires Rep(nodes, root, k, t) && RedConflict(k, t)
    ensures FamilyView(nodes, k, t)
  {
    Surroundings(nodes, root, k, t);
    HoleSide(nodes, root, k, t);
    ZoomOut(nodes, root, k, t);
    Surroundings(nodes, root, k.up, Attach(k, t));
    HoleSide(nodes, root, k.up, Attach(k, t));
    if k.up.LeftOf? {
      ShapeRoot(nodes, k.up.id, nodes[k.up.id].right, k.up.right);
    } else {
      ShapeRoot(nodes, k.up.id, nodes[k.up.id].left, k.up.left);
    }
  }

  // The focus is the root's own node exactly when nothing is above it.
  lemma {:induction false} RootAtTop(nodes: seq<Node>, root: int, k: Path, t: Tree)
    requires Rep(nodes, root, k, t)
    ensures !k.Top? ==> root in PathIds(k)
    ensures HolePtr(nodes, root, k) == root <==> k.Top?
    decreases k
  {
    if k.Top? {
    } else {
      ZoomOut(nodes, root, k, t);
      RootAtTop(nodes, root, k.up, Attach(k, t));
      Surroundings(nodes, root, k, t);
      if k.up.Top? {
        assert root == k.id;
      }
      RootInRange(nodes, root, k);
    }
  }

  lemma {:induction false} RootInRange(nodes: seq<Node>, root: int, k: Path)
    requires PathShape(nodes, root, k) && !k.Top?
    ensures 0 <= root < |nodes|
    decreases k
  {
    if k.up.Top? {
    } else {
      RootInRange(nodes, root, k.up);
    }
  }
}
