/** Taking a node out of the tree: the pointer part of rb_erase
    (ATLWrapper.cpp:3637-3702).  A node with two children is replaced by its
    successor, which amounts to splicing the successor out and then giving the
    successor's name to the erased position. */
module RbUnlinkModel {
  import opened RbModel

  lemma {:induction false} ZoomFromTop(nodes: seq<Node>, root: int, k: Path, t: Tree)
    requires Rep(nodes, root, Top, Plug(k, t))
    ensures Rep(nodes, root, k, t)
    decreases k
  {
    if !k.Top? {
      ZoomFromTop(nodes, root, k.up, Attach(k, t));
      if k.LeftOf? {
        ZoomLeft(nodes, root, k.up, Attach(k, t));
      } else {
        ZoomRight(nodes, root, k.up, Attach(k, t));
      }
    }
  }

  // ------------------------------------------------ one child at most

  ghost predicate Lone(t: Tree, c: Tree) {
    t.Fork? && ((t.left.Leaf? && c == t.right) || (t.right.Leaf? && c == t.left))
  }

  // `x`, the only child's pointer, takes the node's place.
  ghost predicate Spliced(nodes: seq<Node>, nodes': seq<Node>, root: int, root': int, k: Path, x: int)
    requires |nodes'| == |nodes| && (k.Top? || 0 <= k.id < |nodes|)
  {
    && (0 <= x < |nodes| ==> nodes'[x] == nodes[x].(parent := HoleParent(k)))
    && Relinked(nodes, nodes', root, root', k, x)
    && forall i :: 0 <= i < |nodes| && i != x && i != HoleParent(k) ==> nodes'[i] == nodes[i]
  }

  lemma SpliceRep(nodes: seq<Node>, nodes': seq<Node>, root: int, root': int, k: Path, t: Tree, c: Tree, x: int)
    requires Rep(nodes, root, k, t) && Lone(t, c)
    requires Shape(nodes, t.id, x, c)
    requires |nodes'| == |nodes| && (k.Top? || 0 <= k.id < |nodes|)
    requires Spliced(nodes, nodes', root, root', k, x)
    ensures Rep(nodes', root', k, c)
    ensures Inorder(c) == Inorder(t.left) + Inorder(t.right)
    ensures Ids(c) + PathIds(k) == Ids(t) + PathIds(k) - {t.id}
    ensures OnlyTouched(nodes, nodes', Ids(c) + PathIds(k))
  {
    ShapeRoot(nodes, t.id, x, c);
    ShapeFrame(nodes, nodes', t.id, HoleParent(k), x, c);
    PathFrame(nodes, nodes', root, root', k);
  }

  // ------------------------------------------------ who points to whom

  ghost predicate Consistent(nodes: seq<Node>, p: int, x: int, ids: set<int>) {
    && (forall i :: i in ids ==> 0 <= i < |nodes|)
    && (forall i :: i in ids && nodes[i].left != NIL ==> nodes[i].left in ids && nodes[nodes[i].left].parent == i)
    && (forall i :: i in ids && nodes[i].right != NIL ==> nodes[i].right in ids && nodes[nodes[i].right].parent == i)
    && (forall i :: i in ids && nodes[i].left == nodes[i].right ==> nodes[i].left == NIL)
    && (forall i :: i in ids && i != x ==> nodes[i].parent in ids)
    && (forall i :: i in ids && i != x ==> nodes[nodes[i].parent].left == i || nodes[nodes[i].parent].right == i)
    && (x != NIL ==> x in ids && nodes[x].parent == p)
  }

  lemma {:induction false} ShapeConsistent(nodes: seq<Node>, p: int, x: int, t: Tree)
    requires Shape(nodes, p, x, t) && Distinct(t) && p !in Ids(t)
    ensures Consistent(nodes, p, x, Ids(t))
    decreases t
  {
    IdsInRange(nodes, p, x, t);
    if t.Leaf? {
    } else {
      ShapeConsistent(nodes, x, nodes[x].left, t.left);
      ShapeConsistent(nodes, x, nodes[x].right, t.right);
      ShapeRoot(nodes, x, nodes[x].left, t.left);
      ShapeRoot(nodes, x, nodes[x].right, t.right);
    }
  }

  // ------------------------------------------------ giving z's place to y

  ghost function Swap(i: int, z: int, y: int): int {
    if i == z then y else i
  }

  ghost function Renamed(t: Tree, z: int, y: int): Tree {
    match t
    case Leaf => Leaf
    case Fork(c, l, x, r) => Fork(c, Renamed(l, z, y), Swap(x, z, y), Renamed(r, z, y))
  }

  ghost function RenamedPath(k: Path, z: int, y: int): Path {
    match k
    case Top => Top
    case LeftOf(up, c, x, r) => LeftOf(RenamedPath(up, z, y), c, Swap(x, z, y), Renamed(r, z, y))
    case RightOf(up, c, l, x) => RightOf(RenamedPath(up, z, y), c, Renamed(l, z, y), Swap(x, z, y))
  }

  ghost predicate LinksRenamed(a: Node, b: Node, z: int, y: int) {
    && b.parent == Swap(a.parent, z, y) && b.color == a.color
    && b.left == Swap(a.left, z, y) && b.right == Swap(a.right, z, y)
  }

  lemma {:induction false} RenameShape(nodes: seq<Node>, nodes': seq<Node>, p: int, x: int, t: Tree, z: int, y: int)
    requires Shape(nodes, p, x, t) && z != NIL && |nodes'| == |nodes| && 0 <= y < |nodes|
    requires forall i :: i in Ids(t) && 0 <= i < |nodes| && i != z ==> LinksRenamed(nodes[i], nodes'[i], z, y)
    requires z in Ids(t) && 0 <= z < |nodes| ==> LinksRenamed(nodes[z], nodes'[y], z, y)
    ensures Shape(nodes', Swap(p, z, y), Swap(x, z, y), Renamed(t, z, y))
    decreases t
  {
    if t.Leaf? {
    } else {
      RenameShape(nodes, nodes', x, nodes[x].left, t.left, z, y);
      RenameShape(nodes, nodes', x, nodes[x].right, t.right, z, y);
    }
  }

  lemma {:induction false} RenameFacts(t: Tree, z: int, y: int)
    requires Distinct(t) && y !in Ids(t)
    ensures Distinct(Renamed(t, z, y))
    ensures Ids(Renamed(t, z, y)) == if z in Ids(t) then Ids(t) - {z} + {y} else Ids(t)
    ensures z !in Ids(t) ==> Renamed(t, z, y) == t
    ensures BlackHeight(Renamed(t, z, y)) == BlackHeight(t)
    ensures Balanced(Renamed(t, z, y)) == Balanced(t)
    ensures NoRedRed(Renamed(t, z, y)) == NoRedRed(t)
    ensures IsBlack(Renamed(t, z, y)) == IsBlack(t)
    decreases t
  {
    if t.Leaf? {
    } else {
      RenameFacts(t.left, z, y);
      RenameFacts(t.right, z, y);
    }
  }

  lemma {:induction false} RenamePlug(k: Path, t: Tree, z: int, y: int)
    ensures Renamed(Plug(k, t), z, y) == Plug(RenamedPath(k, z, y), Renamed(t, z, y))
    decreases k
  {
    if k.Top? {
    } else {
      RenamePlug(k.up, Attach(k, t), z, y);
    }
  }

  lemma {:induction false} RenamePathOk(k: Path, z: int, y: int, h: nat)
    requires PathOk(k, h) && PathDistinct(k) && y !in PathIds(k)
    ensures PathOk(RenamedPath(k, z, y), h)
    ensures HoleUnderRed(RenamedPath(k, z, y)) == HoleUnderRed(k)
    decreases k
  {
    if k.Top? {
    } else {
      RenamePathOk(k.up, z, y, h + Weight(k.color));
      RenameFacts(Sibling(k), z, y);
    }
  }

  // The path from the root to a node in the right subtree of `z`, reached by
  // going left only.
  ghost predicate Descent(k: Path, c: Color, l: Tree, z: int, f: Path)
    decreases f
  {
    || f == RightOf(k, c, l, z)
    || (f.LeftOf? && Descent(k, c, l, z, f.up))
  }

  lemma {:induction false} RenamedDescent(k: Path, c: Color, l: Tree, z: int, f: Path, y: int)
    requires Descent(k, c, l, z, f) && PathDistinct(f) && y !in PathIds(f)
    ensures Before(RenamedPath(f, z, y)) == Before(k) + Inorder(l) + [y]
    ensures After(RenamedPath(f, z, y)) == After(f)
    ensures z in PathIds(f)
    decreases f
  {
    if f == RightOf(k, c, l, z) {
      RenameFacts(l, z, y);
      RenamePathFix(k, z, y);
    } else {
      RenamedDescent(k, c, l, z, f.up, y);
      RenameFacts(f.right, z, y);
    }
  }

  lemma {:induction false} RenamePathFix(k: Path, z: int, y: int)
    requires PathDistinct(k) && z !in PathIds(k) && y !in PathIds(k)
    ensures RenamedPath(k, z, y) == k
    decreases k
  {
    if k.Top? {
    } else {
      RenamePathFix(k.up, z, y);
      RenameFacts(Sibling(k), z, y);
    }
  }

  // ------------------------------------------------ two children

  // The writes of rb_erase that put the successor `y` in the place of `z`.
  ghost predicate Transplanted(nodes: seq<Node>, nodes': seq<Node>, root: int, root': int, k: Path, z: int, y: int)
    requires |nodes'| == |nodes| && 0 <= z < |nodes| && 0 <= y < |nodes|
    requires k.Top? || 0 <= k.id < |nodes|
  {
    var q, c, l, r := nodes[y].parent, nodes[y].right, nodes[z].left, nodes[z].right;
    && nodes'[y].parent == nodes[z].parent && nodes'[y].color == nodes[z].color && nodes'[y].left == l
    && nodes'[y].right == (if q == z then c else r)
    && (0 <= l < |nodes| ==> nodes'[l] == nodes[l].(parent := y))
    && (0 <= c < |nodes| ==> nodes'[c] == nodes[c].(parent := if q == z then y else q))
    && (q != z && 0 <= q < |nodes| ==>
          nodes'[q] == nodes[q].(left := c, parent := if q == r then y else nodes[q].parent))
    && (q != z && 0 <= r < |nodes| && r != q ==> nodes'[r] == nodes[r].(parent := y))
    && Relinked(nodes, nodes', root, root', k, y)
    && nodes'[z] == nodes[z]
    && forall i :: 0 <= i < |nodes| && i !in {y, l, c, q, r, HoleParent(k)} ==> nodes'[i] == nodes[i]
  }

  // The same with the successor merely spliced out.
  ghost function SplicedOut(nodes: seq<Node>, f: Path, y: int): seq<Node>
    requires 0 <= y < |nodes| && !f.Top? && 0 <= f.id < |nodes|
  {
    var c := nodes[y].right;
    var n := if 0 <= c < |nodes| then nodes[c := nodes[c].(parent := f.id)] else nodes;
    if f.LeftOf? then n[f.id := n[f.id].(left := c)] else n[f.id := n[f.id].(right := c)]
  }

  lemma SpliceSuccessor(nodes: seq<Node>, root: int, f: Path, s: Tree)
    requires Rep(nodes, root, f, s) && s.Fork? && s.left.Leaf? && !f.Top?
    ensures 0 <= s.id < |nodes| && 0 <= f.id < |nodes|
    ensures Rep(SplicedOut(nodes, f, s.id), root, f, s.right)
    ensures Ids(s.right) + PathIds(f) == Ids(s) + PathIds(f) - {s.id}
  {
    Surroundings(nodes, root, f, s);
    var c := nodes[s.id].right;
    ShapeRoot(nodes, s.id, c, s.right);
    SpliceRep(nodes, SplicedOut(nodes, f, s.id), root, root, f, s, s.right, c);
  }

  // What is known about the pointers around `z` and its successor `y`.
  ghost predicate Around(nodes: seq<Node>, root: int, k: Path, f: Path, z: int, y: int, ids: set<int>) {
    && 0 <= z < |nodes| && 0 <= y < |nodes| && !f.Top? && 0 <= f.id < |nodes|
    && (k.Top? || 0 <= k.id < |nodes|)
    && nodes[y].parent == f.id && (f.id != z ==> f.LeftOf?) && (f.id == z ==> f.RightOf?)
    && nodes[z].parent == HoleParent(k) && nodes[z].right != NIL && (f.id == z ==> nodes[z].right == y)
    && (k.LeftOf? ==> nodes[k.id].left == z && nodes[k.id].right != z)
    && (k.RightOf? ==> nodes[k.id].right == z && nodes[k.id].left != z)
    && Consistent(SplicedOut(nodes, f, y), NIL, root, ids) && z in ids && y !in ids && f.id in ids
    && (!k.Top? ==> k.id in ids && k.id != f.id && k.id != z)
    && nodes[y].right != f.id && nodes[z].left != nodes[z].right
    && (k.Top? <==> root == z)
  }

  // The only pointers to `z` are those of its parent and of its children.
  lemma RenameUp(nodes: seq<Node>, nodes': seq<Node>, root: int, root': int, k: Path, f: Path, z: int, y: int,
                 ids: set<int>, i: int)
    requires Around(nodes, root, k, f, z, y, ids) && |nodes'| == |nodes|
    requires Transplanted(nodes, nodes', root, root', k, z, y)
    requires i in ids && i != z && 0 <= i < |nodes|
    ensures nodes'[i].parent == Swap(SplicedOut(nodes, f, y)[i].parent, z, y)
  {
  }

  lemma RenameDown(nodes: seq<Node>, nodes': seq<Node>, root: int, root': int, k: Path, f: Path, z: int, y: int,
                   ids: set<int>, i: int)
    requires Around(nodes, root, k, f, z, y, ids) && |nodes'| == |nodes|
    requires Transplanted(nodes, nodes', root, root', k, z, y)
    requires i in ids && i != z && 0 <= i < |nodes|
    ensures nodes'[i].color == SplicedOut(nodes, f, y)[i].color
    ensures nodes'[i].left == Swap(SplicedOut(nodes, f, y)[i].left, z, y)
    ensures nodes'[i].right == Swap(SplicedOut(nodes, f, y)[i].right, z, y)
  {
  }

  lemma RenameTarget(nodes: seq<Node>, nodes': seq<Node>, root: int, root': int, k: Path, f: Path, z: int, y: int,
                     ids: set<int>)
    requires Around(nodes, root, k, f, z, y, ids) && |nodes'| == |nodes|
    requires Transplanted(nodes, nodes', root, root', k, z, y)
    ensures LinksRenamed(SplicedOut(nodes, f, y)[z], nodes'[y], z, y)
    ensures root' == Swap(root, z, y)
  {
  }

  // The path to the place the successor left, after the transplant.
  lemma TransplantRep(nodes: seq<Node>, nodes': seq<Node>, root: int, root': int, k: Path, t: Tree, f: Path, s: Tree)
    requires Rep(nodes, root, k, t) && t.Fork? && t.left.Fork? && t.right.Fork?
    requires Rep(nodes, root, f, s) && s.Fork? && s.left.Leaf? && Plug(f, s) == Plug(k, t)
    requires Descent(k, t.color, t.left, t.id, f)
    requires |nodes'| == |nodes| && 0 <= t.id < |nodes| && 0 <= s.id < |nodes| && (k.Top? || 0 <= k.id < |nodes|)
    requires Transplanted(nodes, nodes', root, root', k, t.id, s.id)
    ensures Rep(nodes', root', RenamedPath(f, t.id, s.id), s.right)
  {
    var z, y := t.id, s.id;
    var w := Plug(f, s.right);
    SpliceSuccessor(nodes, root, f, s);
    var n1 := SplicedOut(nodes, f, y);
    ZoomToTop(n1, root, f, s.right);
    assert Distinct(w) && y !in Ids(w) && z !in Ids(s.right) by {
      DescentFacts(k, t.color, t.left, z, f);
    }
    TransplantLinks(nodes, nodes', root, root', k, t, f, s);
    RenameShape(n1, nodes', NIL, root, w, z, y);
    RenameRep(nodes', root', f, s.right, z, y);
  }

  lemma RenameRep(nodes': seq<Node>, root': int, f: Path, r: Tree, z: int, y: int)
    requires Shape(nodes', NIL, root', Renamed(Plug(f, r), z, y))
    requires Distinct(Plug(f, r)) && y !in Ids(Plug(f, r)) && z !in Ids(r) && Distinct(r) && y !in Ids(r)
    ensures Rep(nodes', root', RenamedPath(f, z, y), r)
  {
    RenameFacts(Plug(f, r), z, y);
    RenameFacts(r, z, y);
    RenamePlug(f, r, z, y);
    ZoomFromTop(nodes', root', RenamedPath(f, z, y), r);
  }

  lemma TransplantLinks(nodes: seq<Node>, nodes': seq<Node>, root: int, root': int, k: Path, t: Tree, f: Path, s: Tree)
    requires Rep(nodes, root, k, t) && t.Fork? && t.left.Fork? && t.right.Fork?
    requires Rep(nodes, root, f, s) && s.Fork? && s.left.Leaf? && Plug(f, s) == Plug(k, t)
    requires Descent(k, t.color, t.left, t.id, f)
    requires |nodes'| == |nodes| && 0 <= t.id < |nodes| && 0 <= s.id < |nodes| && (k.Top? || 0 <= k.id < |nodes|)
    requires Transplanted(nodes, nodes', root, root', k, t.id, s.id)
    requires !f.Top? && 0 <= f.id < |nodes| && Rep(SplicedOut(nodes, f, s.id), root, Top, Plug(f, s.right))
    requires Ids(Plug(f, s.right)) == Ids(s.right) + PathIds(f)
    ensures forall i :: i in Ids(Plug(f, s.right)) && 0 <= i < |nodes| && i != t.id ==>
      LinksRenamed(SplicedOut(nodes, f, s.id)[i], nodes'[i], t.id, s.id)
    ensures LinksRenamed(SplicedOut(nodes, f, s.id)[t.id], nodes'[s.id], t.id, s.id)
    ensures root' == Swap(root, t.id, s.id)
  {
    var z, y, ids := t.id, s.id, Ids(Plug(f, s.right));
    var n1 := SplicedOut(nodes, f, y);
    IdsInRange(n1, NIL, root, Plug(f, s.right));
    ShapeConsistent(n1, NIL, root, Plug(f, s.right));
    AroundZ(nodes, root, k, t, f, s);
    forall i | i in ids && 0 <= i < |nodes| && i != z
      ensures LinksRenamed(n1[i], nodes'[i], z, y)
    {
      RenameUp(nodes, nodes', root, root', k, f, z, y, ids, i);
      RenameDown(nodes, nodes', root, root', k, f, z, y, ids, i);
    }
    RenameTarget(nodes, nodes', root, root', k, f, z, y, ids);
  }

  lemma FocusFacts(nodes: seq<Node>, root: int, k: Path, t: Tree)
    requires Rep(nodes, root, k, t) && t.Fork?
    ensures 0 <= t.id < |nodes| && nodes[t.id].parent == HoleParent(k)
    ensures k.Top? <==> root == t.id
    ensures !k.Top? ==> 0 <= k.id < |nodes| && k.id != t.id
    ensures k.LeftOf? ==> nodes[k.id].left == t.id && nodes[k.id].right != t.id
    ensures k.RightOf? ==> nodes[k.id].right == t.id && nodes[k.id].left != t.id
    ensures t.right.Fork? ==>
      0 <= t.right.id < |nodes| && nodes[t.id].right == t.right.id && nodes[t.id].right in Ids(t.right)
    ensures t.right.Leaf? ==> nodes[t.id].right == NIL
    ensures t.left.Fork? ==> nodes[t.id].left == t.left.id && nodes[t.id].left in Ids(t.left)
  {
    Surroundings(nodes, root, k, t);
    RootAtTop(nodes, root, k, t);
    ShapeRoot(nodes, t.id, nodes[t.id].left, t.left);
    ShapeRoot(nodes, t.id, nodes[t.id].right, t.right);
    if !k.Top? {
      HoleSide(nodes, root, k, t);
    }
  }

  lemma AroundZ(nodes: seq<Node>, root: int, k: Path, t: Tree, f: Path, s: Tree)
    requires Rep(nodes, root, k, t) && t.Fork? && t.left.Fork? && t.right.Fork?
    requires Rep(nodes, root, f, s) && s.Fork? && s.left.Leaf? && Plug(f, s) == Plug(k, t)
    requires Descent(k, t.color, t.left, t.id, f)
    requires !f.Top? && 0 <= f.id < |nodes| && 0 <= s.id < |nodes|
    requires Consistent(SplicedOut(nodes, f, s.id), NIL, root, Ids(Plug(f, s.right)))
    requires Ids(Plug(f, s.right)) == Ids(s.right) + PathIds(f)
    ensures Around(nodes, root, k, f, t.id, s.id, Ids(Plug(f, s.right)))
  {
    FocusFacts(nodes, root, k, t);
    FocusFacts(nodes, root, f, s);
    assert s.id !in PathIds(f) && s.id !in Ids(s.right) && f.id !in Ids(s.right);
    DescentFacts(k, t.color, t.left, t.id, f);
    assert Ids(t.left) !! Ids(t.right);
  }

  lemma {:induction false} DescentFacts(k: Path, c: Color, l: Tree, z: int, f: Path)
    requires Descent(k, c, l, z, f) && PathDistinct(f)
    ensures z in PathIds(f) && PathIds(k) + Ids(l) <= PathIds(f) && !f.Top?
    ensures f.id == z <==> f == RightOf(k, c, l, z)
    ensures f.id !in PathIds(k) && f.id !in Ids(l)
    decreases f
  {
    if f == RightOf(k, c, l, z) {
    } else {
      DescentFacts(k, c, l, z, f.up);
    }
  }

  // ------------------------------------------------ what the erasure leaves

  // The tree without `t`'s root, up to rebalancing, seen from the hole of `f`.
  ghost predicate Removed(k: Path, t: Tree, f: Path, c: Tree) {
    && t.Fork?
    && Inorder(Plug(f, c)) == Before(k) + Inorder(t.left) + Inorder(t.right) + After(k)
    && Ids(c) + PathIds(f) == Ids(t) + PathIds(k) - {t.id}
  }

  // Losing a black node leaves a deficit, losing a red one nothing to repair.
  ghost predicate Repairable(color: Color, f: Path, c: Tree) {
    && Balanced(c) && NoRedRed(c)
    && (color == Black ==> PathOk(f, BlackHeight(c) + 1))
    && (color == Red ==> RedBlack(Plug(f, c)))
  }

  lemma SpliceResult(k: Path, t: Tree, c: Tree)
    requires Lone(t, c) && RedBlack(Plug(k, t)) && Distinct(t) && Ids(t) !! PathIds(k)
    ensures Repairable(t.color, k, c) && Removed(k, t, k, c)
  {
    UnplugOk(k, t);
    InorderPlug(k, c);
    assert Inorder(c) == Inorder(t.left) + Inorder(t.right);
    if t.color == Red {
      PlugOk(k, c);
    }
  }

  lemma TransplantBalance(f: Path, s: Tree, z: int, f': Path)
    requires PathOk(f, BlackHeight(s)) && Balanced(s) && NoRedRed(s) && (HoleUnderRed(f) ==> IsBlack(s))
    requires s.Fork? && s.left.Leaf? && !f.Top?
    requires PathDistinct(f) && s.id !in PathIds(f) && f' == RenamedPath(f, z, s.id)
    ensures Repairable(s.color, f', s.right)
  {
    RenamePathOk(f, z, s.id, BlackHeight(s));
    SuccessorGone(f', s);
  }

  lemma SuccessorGone(f: Path, s: Tree)
    requires s.Fork? && Balanced(s) && NoRedRed(s) && s.left.Leaf? && PathOk(f, BlackHeight(s)) && !f.Top?
    requires s.color == Red ==> !HoleUnderRed(f)
    ensures Repairable(s.color, f, s.right)
  {
    assert BlackHeight(s.right) == BlackHeight(s.left) == 0;
    if s.color == Red {
      PlugOk(f, s.right);
    }
  }

  lemma TransplantOrder(nodes: seq<Node>, root: int, k: Path, t: Tree, f: Path, s: Tree, f': Path)
    requires Rep(nodes, root, k, t) && Rep(nodes, root, f, s) && Plug(f, s) == Plug(k, t)
    requires t.Fork? && s.Fork? && s.left.Leaf? && f' == RenamedPath(f, t.id, s.id)
    requires Descent(k, t.color, t.left, t.id, f)
    requires Inorder(s) + After(f) == Inorder(t.right) + After(k)
    ensures Removed(k, t, f', s.right)
  {
    var z, y := t.id, s.id;
    TransplantSeq(k, t, f, s, f');
    assert Ids(s) + PathIds(f) == Ids(t) + PathIds(k) by {
      ZoomToTop(nodes, root, k, t);
      ZoomToTop(nodes, root, f, s);
    }
    DescentFacts(k, t.color, t.left, z, f);
    TransplantIds(f, s, z, y);
  }

  lemma TransplantSeq(k: Path, t: Tree, f: Path, s: Tree, f': Path)
    requires t.Fork? && s.Fork? && s.left.Leaf? && f' == RenamedPath(f, t.id, s.id)
    requires Descent(k, t.color, t.left, t.id, f) && PathDistinct(f) && s.id !in PathIds(f)
    requires Inorder(s) + After(f) == Inorder(t.right) + After(k)
    ensures Inorder(Plug(f', s.right)) == Before(k) + Inorder(t.left) + Inorder(t.right) + After(k)
  {
    RenamedDescent(k, t.color, t.left, t.id, f, s.id);
    InorderPlug(f', s.right);
    assert Inorder(s) == [s.id] + Inorder(s.right);
    Regroup(Before(k) + Inorder(t.left), s.id, Inorder(s.right), After(f), Inorder(t.right), After(k));
  }

  lemma Regroup(a: seq<int>, y: int, b: seq<int>, c: seq<int>, d: seq<int>, e: seq<int>)
    requires ([y] + b) + c == d + e
    ensures (a + [y]) + b + c == a + d + e
  {
    assert (a + [y]) + b + c == a + (([y] + b) + c);
    assert a + d + e == a + (d + e);
  }

  lemma TransplantIds(f: Path, s: Tree, z: int, y: int)
    requires s.Fork? && s.left.Leaf? && s.id == y && Distinct(s) && PathDistinct(f) && Ids(s) !! PathIds(f)
    requires z in PathIds(f)
    ensures Ids(s.right) + PathIds(RenamedPath(f, z, y)) == Ids(s) + PathIds(f) - {z}
  {
    RenamedPathIds(f, z, y);
    assert Ids(s) == {y} + Ids(s.right);
  }

  lemma {:induction false} RenamedPathIds(k: Path, z: int, y: int)
    requires PathDistinct(k) && y !in PathIds(k)
    ensures PathIds(RenamedPath(k, z, y)) == if z in PathIds(k) then PathIds(k) - {z} + {y} else PathIds(k)
    decreases k
  {
    if k.Top? {
    } else {
      RenamedPathIds(k.up, z, y);
      RenameFacts(Sibling(k), z, y);
    }
  }

  lemma TransplantTouches(nodes: seq<Node>, nodes': seq<Node>, root: int, root': int, k: Path, t: Tree, f: Path,
                          s: Tree)
    requires Rep(nodes, root, k, t) && t.Fork? && t.left.Fork? && t.right.Fork?
    requires Rep(nodes, root, f, s) && s.Fork? && s.left.Leaf? && Plug(f, s) == Plug(k, t)
    requires Descent(k, t.color, t.left, t.id, f)
    requires |nodes'| == |nodes| && 0 <= t.id < |nodes| && 0 <= s.id < |nodes| && (k.Top? || 0 <= k.id < |nodes|)
    requires Transplanted(nodes, nodes', root, root', k, t.id, s.id)
    ensures OnlyTouched(nodes, nodes', Ids(t) + PathIds(k) - {t.id})
  {
    FocusFacts(nodes, root, k, t);
    FocusFacts(nodes, root, f, s);
    ZoomToTop(nodes, root, k, t);
    ZoomToTop(nodes, root, f, s);
    DescentFacts(k, t.color, t.left, t.id, f);
    var ids := Ids(t) + PathIds(k);
    assert {s.id, nodes[t.id].left, nodes[t.id].right, f.id} <= ids;
    assert nodes[s.id].right == NIL || nodes[s.id].right in ids;
    assert !k.Top? ==> k.id in ids;
  }

  // One step down to the left keeps what lies from the focus onwards.
  lemma DescendOrder(f: Path, s: Tree)
    requires s.Fork?
    ensures Inorder(s.left) + After(LeftOf(f, s.color, s.id, s.right)) == Inorder(s) + After(f)
  {
  }

  // The pointers rb_erase follows when it moves `y` into the place of `z`.
  ghost predicate Surgery(nodes: seq<Node>, k: Path, z: int, y: int) {
    && 0 <= z < |nodes| && 0 <= y < |nodes| && z != y
    && (k.Top? || 0 <= k.id < |nodes|) && nodes[z].parent == HoleParent(k)
    && (k.LeftOf? ==> nodes[k.id].left == z) && (k.RightOf? ==> nodes[k.id].left != z)
    && var q, c, l, r := nodes[y].parent, nodes[y].right, nodes[z].left, nodes[z].right;
    && 0 <= l < |nodes| && 0 <= r < |nodes| && 0 <= q < |nodes| && (c == NIL || 0 <= c < |nodes|)
    && (!k.Top? ==> k.id !in {z, y, l, r, q, c}) && (c != NIL ==> nodes[c].parent == y)
    && l !in {z, y, r, q, c} && r != z && q != y && c !in {z, y, q, r}
    && (q == z <==> r == y)
  }

  lemma SurgeryReady(nodes: seq<Node>, root: int, k: Path, t: Tree, f: Path, s: Tree)
    requires Rep(nodes, root, k, t) && t.Fork? && t.left.Fork? && t.right.Fork?
    requires Rep(nodes, root, f, s) && s.Fork? && s.left.Leaf? && Plug(f, s) == Plug(k, t)
    requires Descent(k, t.color, t.left, t.id, f)
    ensures Surgery(nodes, k, t.id, s.id)
    ensures nodes[s.id].parent == f.id && nodes[s.id].color == s.color
  {
    FocusFacts(nodes, root, k, t);
    FocusFacts(nodes, root, f, s);
    DescentFacts(k, t.color, t.left, t.id, f);
    Surroundings(nodes, root, f, s);
    ShapeRoot(nodes, t.id, nodes[t.id].left, t.left);
    ShapeRoot(nodes, s.id, nodes[s.id].right, s.right);
    assert nodes[s.id].right != NIL ==> nodes[s.id].right in Ids(s);
    assert !k.Top? ==> k.id in PathIds(k);
    DescentRight(k, t.color, t.left, t.id, f, s, t);
  }

  // The successor hangs off `z` itself exactly when it is z's right child;
  // otherwise that child is on the way down to it.
  lemma {:induction false} DescentRight(k: Path, c: Color, l: Tree, z: int, f: Path, s: Tree, t: Tree)
    requires Descent(k, c, l, z, f) && Plug(f, s) == Plug(k, t)
    requires t.Fork? && t.color == c && t.left == l && t.id == z && t.right.Fork? && s.Fork?
    requires PathDistinct(f) && Distinct(s) && Ids(s) !! PathIds(f)
    ensures f.id != z ==> t.right.id in PathIds(f)
    ensures f == RightOf(k, c, l, z) ==> s == t.right
    decreases f
  {
    if f == RightOf(k, c, l, z) {
      PlugInjective(k, Fork(c, l, z, s), t);
    } else {
      DescentFacts(k, c, l, z, f);
      DescentFacts(k, c, l, z, f.up);
      DescentRight(k, c, l, z, f.up, Attach(f, s), t);
    }
  }

  lemma {:induction false} PlugInjective(k: Path, a: Tree, b: Tree)
    requires Plug(k, a) == Plug(k, b)
    ensures a == b
    decreases k
  {
    if k.Top? {
    } else {
      PlugInjective(k.up, Attach(k, a), Attach(k, b));
    }
  }

  // The three groups of writes of rb_erase when it moves `y` into z's place.
  ghost function Hung(n: seq<Node>, k: Path, x: int): (n': seq<Node>)
    requires k.Top? || 0 <= k.id < |n|
    ensures SameEntries(n, n')
  {
    match k
    case Top => n
    case LeftOf(_, _, i, _) => n[i := n[i].(left := x)]
    case RightOf(_, _, _, i) => n[i := n[i].(right := x)]
  }

  ghost function Detached(n: seq<Node>, z: int, y: int): (n': seq<Node>)
    requires 0 <= z < |n| && 0 <= y < |n| && 0 <= n[y].parent < |n| && 0 <= n[z].right < |n|
    ensures SameEntries(n, n')
  {
    var q, c, r := n[y].parent, n[y].right, n[z].right;
    if q == z then n else
      var n1 := if 0 <= c < |n| then n[c := n[c].(parent := q)] else n;
      var n2 := n1[q := n1[q].(left := c)];
      var n3 := n2[y := n2[y].(right := r)];
      n3[r := n3[r].(parent := y)]
  }

  ghost function Adopted(n: seq<Node>, z: int, y: int): (n': seq<Node>)
    requires 0 <= z < |n| && 0 <= y < |n| && 0 <= n[z].left < |n|
    ensures SameEntries(n, n')
  {
    var n1 := n[y := n[y].(parent := n[z].parent, color := n[z].color, left := n[z].left)];
    n1[n[z].left := n1[n[z].left].(parent := y)]
  }

  lemma SurgeryDone(n: seq<Node>, root: int, root': int, k: Path, z: int, y: int)
    requires Surgery(n, k, z, y) && root' == if k.Top? then y else root
    ensures var h := Hung(n, k, y);
      0 <= h[y].parent < |h| && 0 <= h[z].right < |h| && 0 <= Detached(h, z, y)[z].left < |n|
    ensures Transplanted(n, Adopted(Detached(Hung(n, k, y), z, y), z, y), root, root', k, z, y)
  {
    var h := Hung(n, k, y);
    assert h[y] == n[y] && h[z] == n[z];
    var d := Detached(h, z, y);
    assert d[z] == n[z];
    if n[y].parent == z {
      SurgeryNear(n, h, d, Adopted(d, z, y), root, root', k, z, y);
    } else {
      SurgeryFar(n, h, d, Adopted(d, z, y), root, root', k, z, y);
    }
  }

  ghost predicate Stages(n: seq<Node>, h: seq<Node>, d: seq<Node>, a: seq<Node>, k: Path, z: int, y: int) {
    && Surgery(n, k, z, y)
    && h == Hung(n, k, y) && h[y] == n[y] && h[z] == n[z]
    && d == Detached(h, z, y) && d[z] == n[z]
    && a == Adopted(d, z, y)
  }

  lemma SurgeryNear(n: seq<Node>, h: seq<Node>, d: seq<Node>, a: seq<Node>, root: int, root': int, k: Path, z: int,
                    y: int)
    requires Stages(n, h, d, a, k, z, y) && root' == (if k.Top? then y else root) && n[y].parent == z
    ensures Transplanted(n, a, root, root', k, z, y)
  {
  }

  lemma SurgeryFar(n: seq<Node>, h: seq<Node>, d: seq<Node>, a: seq<Node>, root: int, root': int, k: Path, z: int,
                   y: int)
    requires Stages(n, h, d, a, k, z, y) && root' == (if k.Top? then y else root) && n[y].parent != z
    ensures Transplanted(n, a, root, root', k, z, y)
  {
  }
}
