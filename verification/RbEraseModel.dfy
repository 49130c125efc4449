/** Trees and paths for red-black deletion: the intermediate structures of
    __rb_erase_color (ATLWrapper.cpp:3558-3635). */
module RbEraseModel {
  import opened RbModel

  // The subtree in the hole is one black node short.
  ghost predicate Deficit(k: Path, t: Tree) {
    && Balanced(t) && NoRedRed(Blacken(t))
    && PathOk(k, BlackHeight(t) + 1)
  }

  lemma PlugSame(k: Path, a: Tree, b: Tree)
    requires Inorder(a) == Inorder(b)
    ensures Inorder(Plug(k, a)) == Inorder(Plug(k, b))
  {
  }

  // A path to the other subtree of the hole's owner.
  ghost function Across(k: Path, t: Tree): Path
    requires !k.Top?
  {
    match k
    case LeftOf(up, c, x, _) => RightOf(up, c, t, x)
    case RightOf(up, c, _, x) => LeftOf(up, c, x, t)
  }

  lemma ZoomAcross(nodes: seq<Node>, root: int, k: Path, t: Tree)
    requires !k.Top? && Rep(nodes, root, k, t)
    ensures Rep(nodes, root, Across(k, t), Sibling(k))
    ensures Attach(Across(k, t), Sibling(k)) == Attach(k, t)
  {
  }

  // ------------------------------------------------ a red sibling

  // The path to the same hole after the red sibling has become the owner's parent.
  ghost function UnderSibling(k: Path): Path
    requires !k.Top? && Sibling(k).Fork?
  {
    match k
    case LeftOf(up, _, p, s) => LeftOf(LeftOf(up, Black, s.id, s.right), Red, p, s.left)
    case RightOf(up, _, s, p) => RightOf(RightOf(up, Black, s.left, s.id), Red, s.right, p)
  }

  lemma UnderSiblingOrder(k: Path, t: Tree)
    requires !k.Top? && Sibling(k).Fork?
    ensures Inorder(Plug(UnderSibling(k), t)) == Inorder(Plug(k, t))
    ensures Ids(t) + PathIds(UnderSibling(k)) == Ids(t) + PathIds(k)
    ensures Depth(UnderSibling(k)) == Depth(k) + 1
  {
    var a := Attach(k, t);
    if k.LeftOf? {
      PlugSame(k.up, a, RotLeft(a));
      RotLeftOrder(k.up, a);
      PlugSame(k.up, RotLeft(a), Attach(UnderSibling(k).up, Attach(UnderSibling(k), t)));
    } else {
      RotRightOrder(k.up, a);
      PlugSame(k.up, RotRight(a), Attach(UnderSibling(k).up, Attach(UnderSibling(k), t)));
    }
  }

  lemma UnderSiblingOk(k: Path, t: Tree)
    requires Deficit(k, t) && !k.Top? && Sibling(k).Fork? && Sibling(k).color == Red
    ensures Deficit(UnderSibling(k), t) && k.color == Black
    ensures IsBlack(Sibling(UnderSibling(k)))
  {
  }

  // ------------------------------------------------ black nephews

  lemma PassUpOk(k: Path, t: Tree)
    requires Deficit(k, t) && IsBlack(t) && !k.Top? && Sibling(k).Fork? && Sibling(k).color == Black
    requires IsBlack(Sibling(k).left) && IsBlack(Sibling(k).right)
    ensures Deficit(k.up, Attach(WithSibling(k, Sibling(k).(color := Red)), t))
    ensures Inorder(Plug(k.up, Attach(WithSibling(k, Sibling(k).(color := Red)), t))) == Inorder(Plug(k, t))
    ensures Ids(Attach(WithSibling(k, Sibling(k).(color := Red)), t)) + PathIds(k.up) == Ids(t) + PathIds(k)
  {
    var s := Sibling(k).(color := Red);
    var a := Attach(WithSibling(k, s), t);
    assert Balanced(s) && BlackHeight(s) == BlackHeight(t) && NoRedRed(s);
    assert Ids(s) == Ids(Sibling(k)) && Inorder(s) == Inorder(Sibling(k));
    PlugSame(k.up, a, Attach(k, t));
    assert NoRedRed(t);
  }

  // ------------------------------------------------ a red nephew

  // The sibling's subtree once its inner red child has been rotated outside.
  ghost function OuterRed(k: Path): Tree
    requires !k.Top? && Sibling(k).Fork? && (k.LeftOf? ==> Sibling(k).left.Fork?)
    requires (k.RightOf? ==> Sibling(k).right.Fork?)
  {
    match k
    case LeftOf(_, _, _, s) => Fork(Black, s.left.left, s.left.id, Fork(Red, s.left.right, s.id, s.right))
    case RightOf(_, _, s, _) => Fork(Black, Fork(Red, s.left, s.id, s.right.left), s.right.id, s.right.right)
  }

  lemma OuterRedOrder(k: Path, t: Tree)
    requires !k.Top? && Sibling(k).Fork? && (k.LeftOf? ==> Sibling(k).left.Fork?)
    requires (k.RightOf? ==> Sibling(k).right.Fork?)
    ensures Inorder(Plug(WithSibling(k, OuterRed(k)), t)) == Inorder(Plug(k, t))
    ensures Ids(t) + PathIds(WithSibling(k, OuterRed(k))) == Ids(t) + PathIds(k)
    ensures Depth(WithSibling(k, OuterRed(k))) == Depth(k)
  {
    var s, o := Sibling(k), OuterRed(k);
    if k.LeftOf? {
      RotRightOrder(Top, s);
      assert Inorder(RotRight(s)) == Inorder(o);
    } else {
      RotLeftOrder(Top, s);
      assert Inorder(RotLeft(s)) == Inorder(o);
    }
    assert Inorder(o) == Inorder(s);
    PlugSame(k.up, Attach(k, t), Attach(WithSibling(k, o), t));
    assert Ids(o) == Ids(s);
  }

  lemma OuterRedOk(k: Path, t: Tree)
    requires Deficit(k, t) && !k.Top? && Sibling(k).Fork? && Sibling(k).color == Black
    requires k.LeftOf? ==> Sibling(k).left.Fork? && Sibling(k).left.color == Red && IsBlack(Sibling(k).right)
    requires k.RightOf? ==> Sibling(k).right.Fork? && Sibling(k).right.color == Red && IsBlack(Sibling(k).left)
    ensures Deficit(WithSibling(k, OuterRed(k)), t)
  {
    var s, o := Sibling(k), OuterRed(k);
    var x := if k.LeftOf? then s.left else s.right;
    assert Balanced(x) && NoRedRed(x) && BlackHeight(x.left) == BlackHeight(x.right) == BlackHeight(x);
    if k.LeftOf? {
      assert Balanced(o.right) && NoRedRed(o.right);
    } else {
      assert Balanced(o.left) && NoRedRed(o.left);
    }
    assert Balanced(o) && NoRedRed(o) && BlackHeight(o) == BlackHeight(s);
  }

  // The owner's place after the final rotation of __rb_erase_color.
  ghost function Settled(k: Path, t: Tree): Tree
    requires !k.Top? && Sibling(k).Fork?
  {
    match k
    case LeftOf(_, c, p, s) => Fork(c, Fork(Black, t, p, s.left), s.id, Blacken(s.right))
    case RightOf(_, c, s, p) => Fork(c, Blacken(s.left), s.id, Fork(Black, s.right, p, t))
  }

  lemma SettledOrder(k: Path, t: Tree)
    requires !k.Top? && Sibling(k).Fork?
    ensures Inorder(Plug(k.up, Settled(k, t))) == Inorder(Plug(k, t))
    ensures Ids(Settled(k, t)) + PathIds(k.up) == Ids(t) + PathIds(k)
  {
    var a := Attach(k, t);
    if k.LeftOf? {
      RotLeftOrder(k.up, a);
      assert Inorder(Blacken(k.right.right)) == Inorder(k.right.right);
      assert Ids(Blacken(k.right.right)) == Ids(k.right.right);
      PlugSame(k.up, RotLeft(a), Settled(k, t));
    } else {
      RotRightOrder(k.up, a);
      assert Inorder(Blacken(k.left.left)) == Inorder(k.left.left);
      assert Ids(Blacken(k.left.left)) == Ids(k.left.left);
      PlugSame(k.up, RotRight(a), Settled(k, t));
    }
  }

  lemma SettledOk(k: Path, t: Tree)
    requires Deficit(k, t) && IsBlack(t) && !k.Top? && Sibling(k).Fork? && Sibling(k).color == Black
    requires k.LeftOf? ==> Sibling(k).right.Fork? && Sibling(k).right.color == Red
    requires k.RightOf? ==> Sibling(k).left.Fork? && Sibling(k).left.color == Red
    ensures RedBlack(Plug(k.up, Settled(k, t)))
  {
    var s := Sibling(k);
    var x := if k.LeftOf? then s.right else s.left;
    var y := if k.LeftOf? then s.left else s.right;
    BlackenOk(x);
    assert Balanced(x) && NoRedRed(x) && Balanced(y) && NoRedRed(y);
    assert BlackHeight(x) == BlackHeight(y) == BlackHeight(t);
    assert NoRedRed(t);
    var w := Settled(k, t);
    var q := if k.LeftOf? then w.left else w.right;
    assert Balanced(q) && NoRedRed(q) && BlackHeight(q) == BlackHeight(t) + 1;
    assert Balanced(w) && NoRedRed(w) && BlackHeight(w) == BlackHeight(t) + 1 + Weight(k.color);
    PlugOk(k.up, w);
  }

  // ------------------------------------------------ leaving the loop

  // Painting the focus black finishes the deletion.
  ghost predicate Finished(k: Path, t: Tree) {
    && (t.Leaf? ==> k.Top?)
    && RedBlack(Plug(k, Blacken(t)))
  }

  lemma DeficitDone(k: Path, t: Tree)
    requires Deficit(k, t) && (k.Top? || !IsBlack(t))
    ensures Finished(k, t)
  {
    if !k.Top? {
      PlugOk(k, Blacken(t));
    }
  }

  lemma FinishedOrder(k: Path, t: Tree)
    ensures Inorder(Plug(k, Blacken(t))) == Inorder(Plug(k, t))
    ensures Ids(Blacken(t)) == Ids(t)
  {
    PlugSame(k, Blacken(t), t);
  }

  // What one iteration of __rb_erase_color reads around the hole.
  ghost predicate SiblingView(nodes: seq<Node>, k: Path)
    requires !k.Top?
  {
    && 0 <= k.id < |nodes| && nodes[k.id].color == k.color && nodes[k.id].parent == HoleParent(k.up)
    && var o := if k.LeftOf? then nodes[k.id].right else nodes[k.id].left;
    && var s := Sibling(k);
    && s.Fork? && o == s.id && 0 <= o < |nodes| && nodes[o].color == s.color
    && (nodes[o].left == NIL <==> s.left.Leaf?)
    && (nodes[o].right == NIL <==> s.right.Leaf?)
    && (s.left.Fork? ==> 0 <= nodes[o].left < |nodes| && nodes[nodes[o].left].color == s.left.color)
    && (s.right.Fork? ==> 0 <= nodes[o].right < |nodes| && nodes[nodes[o].right].color == s.right.color)
  }

  lemma ViewSibling(nodes: seq<Node>, root: int, k: Path, t: Tree)
    requires Rep(nodes, root, k, t) && Deficit(k, t) && !k.Top?
    ensures SiblingView(nodes, k)
    ensures nodes[k.id].left == HolePtr(nodes, root, k) <==> k.LeftOf?
  {
    var s := Sibling(k);
    assert BlackHeight(s) == BlackHeight(t) + 1;
    HoleSide(nodes, root, k, t);
    Surroundings(nodes, root, k, t);
    var o := if k.LeftOf? then nodes[k.id].right else nodes[k.id].left;
    ShapeRoot(nodes, k.id, o, s);
    ShapeRoot(nodes, o, nodes[o].left, s.left);
    ShapeRoot(nodes, o, nodes[o].right, s.right);
  }

  lemma RepairableDeficit(k: Path, t: Tree)
    requires Balanced(t) && NoRedRed(t) && PathOk(k, BlackHeight(t) + 1)
    ensures Deficit(k, t)
  {
  }
}
