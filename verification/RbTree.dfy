/** Rebalancing of the map log's red-black tree (ATLWrapper.cpp:3446-3702). */
module RbTree {
  import opened RbEraseModel
  import opened RbModel
  import opened RbUnlinkModel

  class Links {
    var root: int
    const nodes: array<Node>

    constructor (slots: nat)
      ensures root == NIL && nodes.Length == slots && fresh(nodes)
    {
      root := NIL;
      nodes := new Node[slots](_ => Node(NIL, Red, NIL, NIL, 0, 0));
    }

    method SetParent(i: int, p: int)
      requires 0 <= i < nodes.Length
      modifies nodes
      ensures nodes[..] == old(nodes[..])[i := old(nodes[i]).(parent := p)]
    {
      nodes[i] := nodes[i].(parent := p);
    }

    method SetLeft(i: int, x: int)
      requires 0 <= i < nodes.Length
      modifies nodes
      ensures nodes[..] == old(nodes[..])[i := old(nodes[i]).(left := x)]
    {
      nodes[i] := nodes[i].(left := x);
    }

    method SetRight(i: int, x: int)
      requires 0 <= i < nodes.Length
      modifies nodes
      ensures nodes[..] == old(nodes[..])[i := old(nodes[i]).(right := x)]
    {
      nodes[i] := nodes[i].(right := x);
    }

    method SetColor(i: int, c: Color)
      requires 0 <= i < nodes.Length
      modifies nodes
      ensures nodes[..] == old(nodes[..])[i := old(nodes[i]).(color := c)]
    {
      nodes[i] := nodes[i].(color := c);
    }

    // Re-colouring the node in focus.
    method PaintAt(i: int, c: Color, ghost k: Path, ghost t: Tree)
      requires Rep(nodes[..], root, k, t) && t.Fork? && t.id == i
      modifies nodes
      ensures Rep(nodes[..], root, k, t.(color := c))
      ensures SameEntries(old(nodes[..]), nodes[..])
      ensures OnlyTouched(old(nodes[..]), nodes[..], {i})
    {
      Paint(nodes[..], root, k, t, c);
      SetColor(i, c);
    }

    method RotateLeft(node: int, ghost k: Path, ghost t: Tree)
      requires Rep(nodes[..], root, k, t) && t.Fork? && t.right.Fork? && t.id == node
      modifies nodes, this`root
      ensures Rep(nodes[..], root, k, RotLeft(t))
      ensures SameEntries(old(nodes[..]), nodes[..])
      ensures OnlyTouched(old(nodes[..]), nodes[..], Ids(t) + PathIds(k))
    {
      ghost var n0 := nodes[..];
      IdsInRange(n0, HoleParent(k), node, t);
      var right := nodes[node].right;
      assert Shape(n0, node, n0[node].right, t.right);
      assert Shape(n0, right, n0[right].left, t.right.left);
      var parent := nodes[node].parent;
      SetRight(node, nodes[right].left);
      if nodes[right].left != NIL {
        SetParent(nodes[right].left, node);
      }
      SetLeft(right, node);
      SetParent(right, parent);
      if parent != NIL {
        if node == nodes[parent].left {
          SetLeft(parent, right);
        } else {
          SetRight(parent, right);
        }
      } else {
        root := right;
      }
      SetParent(node, right);

      ghost var n1 := nodes[..];
      assert RotatedLeft(n0, n1, old(root), root, k, node, right);
      RotLeftRep(n0, n1, old(root), root, k, t);
    }

    method RotateRight(node: int, ghost k: Path, ghost t: Tree)
      requires Rep(nodes[..], root, k, t) && t.Fork? && t.left.Fork? && t.id == node
      modifies nodes, this`root
      ensures Rep(nodes[..], root, k, RotRight(t))
      ensures SameEntries(old(nodes[..]), nodes[..])
      ensures OnlyTouched(old(nodes[..]), nodes[..], Ids(t) + PathIds(k))
    {
      ghost var n0 := nodes[..];
      IdsInRange(n0, HoleParent(k), node, t);
      var left := nodes[node].left;
      assert Shape(n0, node, n0[node].left, t.left);
      assert Shape(n0, left, n0[left].right, t.left.right);
      var parent := nodes[node].parent;
      SetLeft(node, nodes[left].right);
      if nodes[left].right != NIL {
        SetParent(nodes[left].right, node);
      }
      SetRight(left, node);
      SetParent(left, parent);
      if parent != NIL {
        if node == nodes[parent].right {
          SetRight(parent, left);
        } else {
          SetLeft(parent, left);
        }
      } else {
        root := left;
      }
      SetParent(node, left);

      ghost var n1 := nodes[..];
      assert RotatedRight(n0, n1, old(root), root, k, node, left);
      RotRightRep(n0, n1, old(root), root, k, t);
    }

    // rb_set_black / rb_set_red on the owner of the hole, and on its other child.
    method PaintParent(i: int, c: Color, ghost k: Path, ghost t: Tree)
      requires Rep(nodes[..], root, k, t) && !k.Top? && k.id == i
      modifies nodes
      ensures Rep(nodes[..], root, WithColor(k, c), t)
      ensures SameEntries(old(nodes[..]), nodes[..])
      ensures OnlyTouched(old(nodes[..]), nodes[..], PathIds(k))
    {
      PaintOwner(nodes[..], root, k, t, c);
      SetColor(i, c);
    }

    method PaintOther(i: int, c: Color, ghost k: Path, ghost t: Tree)
      requires Rep(nodes[..], root, k, t) && !k.Top? && Sibling(k).Fork? && Sibling(k).id == i
      modifies nodes
      ensures Rep(nodes[..], root, WithSibling(k, Sibling(k).(color := c)), t)
      ensures SameEntries(old(nodes[..]), nodes[..])
      ensures OnlyTouched(old(nodes[..]), nodes[..], PathIds(k))
    {
      PaintSibling(nodes[..], root, k, t, c);
      SetColor(i, c);
    }

    // The recolouring step of rb_insert_color: a red uncle passes the
    // conflict two levels up.
    method PushRedUp(parent: int, gparent: int, uncle: int, ghost k: Path, ghost t: Tree) returns (ghost t': Tree)
      requires Rep(nodes[..], root, k, t) && RedConflict(k, t)
      requires k.id == parent && k.up.id == gparent
      requires Sibling(k.up).Fork? && Sibling(k.up).color == Red && Sibling(k.up).id == uncle
      modifies nodes
      ensures Rep(nodes[..], root, k.up.up, t')
      ensures t'.Fork? && t'.id == gparent && t'.color == Red && RedFocus(k.up.up, t')
      ensures Rearranged(old(nodes[..]), k, t, nodes[..], k.up.up, t')
    {
      ghost var n0 := nodes[..];
      ZoomOut(n0, root, k, t);
      ghost var n1, n2, n3 := PaintFamily(n0, root, k.up, Attach(k, t));
      SetColor(uncle, Black);
      SetColor(parent, Black);
      SetColor(gparent, Red);
      assert nodes[..] == n3;
      t' := Lifted(k, t);
      LiftedOk(k, t);
    }

    // An inner red child is first rotated to the outside.
    method StraightenLeft(parent: int, node: int, ghost k: Path, ghost t: Tree)
        returns (ghost k': Path, ghost t': Tree)
      requires Rep(nodes[..], root, k, t) && RedConflict(k, t)
      requires k.id == parent && t.id == node && k.RightOf? && k.up.LeftOf?
      modifies nodes, this`root
      ensures Rep(nodes[..], root, k', t') && RedConflict(k', t')
      ensures k'.id == node && t'.id == parent && k'.up == k.up && k'.LeftOf?
      ensures Rearranged(old(nodes[..]), k, t, nodes[..], k', t') && Depth(k') == Depth(k)
    {
      ZoomOut(nodes[..], root, k, t);
      assert Ids(Attach(k, t)) + PathIds(k.up) == Ids(t) + PathIds(k);
      RotateLeft(parent, k.up, Attach(k, t));
      ZoomLeft(nodes[..], root, k.up, RotLeft(Attach(k, t)));
      k', t' := LeftOf(k.up, t.color, t.id, t.right), Fork(k.color, k.left, k.id, t.left);
      StraightenOk(k, t, k', t');
    }

    method StraightenRight(parent: int, node: int, ghost k: Path, ghost t: Tree)
        returns (ghost k': Path, ghost t': Tree)
      requires Rep(nodes[..], root, k, t) && RedConflict(k, t)
      requires k.id == parent && t.id == node && k.LeftOf? && k.up.RightOf?
      modifies nodes, this`root
      ensures Rep(nodes[..], root, k', t') && RedConflict(k', t')
      ensures k'.id == node && t'.id == parent && k'.up == k.up && k'.RightOf?
      ensures Rearranged(old(nodes[..]), k, t, nodes[..], k', t') && Depth(k') == Depth(k)
    {
      ZoomOut(nodes[..], root, k, t);
      assert Ids(Attach(k, t)) + PathIds(k.up) == Ids(t) + PathIds(k);
      RotateRight(parent, k.up, Attach(k, t));
      ZoomRight(nodes[..], root, k.up, RotRight(Attach(k, t)));
      k', t' := RightOf(k.up, t.color, t.left, t.id), Fork(k.color, t.right, k.id, k.right);
      StraightenOk(k, t, k', t');
    }

    // The outer red child's parent takes the grandparent's place.
    method TurnRight(parent: int, gparent: int, ghost k: Path, ghost t: Tree)
      requires Rep(nodes[..], root, k, t) && RedConflict(k, t)
      requires k.id == parent && k.up.id == gparent && k.LeftOf? && k.up.LeftOf?
      requires IsBlack(Sibling(k.up))
      modifies nodes, this`root
      ensures Rep(nodes[..], root, Lowered(k), t) && RedFocus(Lowered(k), t)
      ensures Rearranged(old(nodes[..]), k, t, nodes[..], Lowered(k), t) && Depth(Lowered(k)) < Depth(k)
    {
      ghost var p := Attach(WithColor(k, Black), t);
      PaintParent(parent, Black, k, t);
      ZoomOut(nodes[..], root, WithColor(k, Black), t);
      PaintParent(gparent, Red, k.up, p);
      ghost var g := WithColor(k.up, Red);
      ZoomOut(nodes[..], root, g, p);
      assert Ids(Attach(g, p)) + PathIds(g.up) == Ids(t) + PathIds(k);
      RotateRight(gparent, g.up, Attach(g, p));
      ZoomLeft(nodes[..], root, g.up, RotRight(Attach(g, p)));
      LoweredOk(k, t);
    }

    method TurnLeft(parent: int, gparent: int, ghost k: Path, ghost t: Tree)
      requires Rep(nodes[..], root, k, t) && RedConflict(k, t)
      requires k.id == parent && k.up.id == gparent && k.RightOf? && k.up.RightOf?
      requires IsBlack(Sibling(k.up))
      modifies nodes, this`root
      ensures Rep(nodes[..], root, Lowered(k), t) && RedFocus(Lowered(k), t)
      ensures Rearranged(old(nodes[..]), k, t, nodes[..], Lowered(k), t) && Depth(Lowered(k)) < Depth(k)
    {
      ghost var p := Attach(WithColor(k, Black), t);
      PaintParent(parent, Black, k, t);
      ZoomOut(nodes[..], root, WithColor(k, Black), t);
      PaintParent(gparent, Red, k.up, p);
      ghost var g := WithColor(k.up, Red);
      ZoomOut(nodes[..], root, g, p);
      assert Ids(Attach(g, p)) + PathIds(g.up) == Ids(t) + PathIds(k);
      RotateLeft(gparent, g.up, Attach(g, p));
      ZoomRight(nodes[..], root, g.up, RotLeft(Attach(g, p)));
      LoweredOk(k, t);
    }

    // One iteration of rb_insert_color, the parent being a left child.
    method InsertStepLeft(node0: int, ghost k0: Path, ghost t0: Tree) returns (node: int, ghost k: Path, ghost t: Tree)
      requires Rep(nodes[..], root, k0, t0) && RedConflict(k0, t0) && t0.id == node0 && k0.up.LeftOf?
      requires FamilyView(nodes[..], k0, t0)
      modifies nodes, this`root
      ensures Rep(nodes[..], root, k, t) && RedFocus(k, t) && t.id == node
      ensures Rearranged(old(nodes[..]), k0, t0, nodes[..], k, t) && Depth(k) < Depth(k0)
    {
      var parent := nodes[node0].parent;
      var gparent := nodes[parent].parent;
      var uncle := nodes[gparent].right;
      if uncle != NIL && nodes[uncle].color == Red {
        t := PushRedUp(parent, gparent, uncle, k0, t0);
        k := k0.up.up;
        node := gparent;
      } else {
        k, t, node := k0, t0, node0;
        if nodes[parent].right == node {
          k, t := StraightenLeft(parent, node, k, t);
          parent, node := node, parent;
        }
        ghost var n1 := nodes[..];
        TurnRight(parent, gparent, k, t);
        RearrangedTrans(old(nodes[..]), k0, t0, n1, k, t, nodes[..], Lowered(k), t);
        k := Lowered(k);
      }
    }

    // One iteration of rb_insert_color, the parent being a right child.
    method InsertStepRight(node0: int, ghost k0: Path, ghost t0: Tree) returns (node: int, ghost k: Path, ghost t: Tree)
      requires Rep(nodes[..], root, k0, t0) && RedConflict(k0, t0) && t0.id == node0 && k0.up.RightOf?
      requires FamilyView(nodes[..], k0, t0)
      modifies nodes, this`root
      ensures Rep(nodes[..], root, k, t) && RedFocus(k, t) && t.id == node
      ensures Rearranged(old(nodes[..]), k0, t0, nodes[..], k, t) && Depth(k) < Depth(k0)
    {
      var parent := nodes[node0].parent;
      var gparent := nodes[parent].parent;
      var uncle := nodes[gparent].left;
      if uncle != NIL && nodes[uncle].color == Red {
        t := PushRedUp(parent, gparent, uncle, k0, t0);
        k := k0.up.up;
        node := gparent;
      } else {
        k, t, node := k0, t0, node0;
        if nodes[parent].left == node {
          k, t := StraightenRight(parent, node, k, t);
          parent, node := node, parent;
        }
        ghost var n1 := nodes[..];
        TurnLeft(parent, gparent, k, t);
        RearrangedTrans(old(nodes[..]), k0, t0, n1, k, t, nodes[..], Lowered(k), t);
        k := Lowered(k);
      }
    }

    // rb_insert_color: a red node `node0` with black height to match its place.
    method InsertColor(node0: int, ghost k0: Path, ghost t0: Tree) returns (ghost w: Tree)
      requires Rep(nodes[..], root, k0, t0) && RedFocus(k0, t0) && t0.id == node0
      modifies nodes, this`root
      ensures Rep(nodes[..], root, Top, w) && RedBlack(w)
      ensures Rearranged(old(nodes[..]), k0, t0, nodes[..], Top, w)
    {
      hide Balanced, NoRedRed, Plug;
      ghost var k, t := k0, t0;
      var node := node0;
      Surroundings(nodes[..], root, k, t);
      while nodes[node].parent != NIL && nodes[nodes[node].parent].color == Red
        invariant Rep(nodes[..], root, k, t) && RedFocus(k, t) && t.id == node
        invariant 0 <= node < nodes.Length && nodes[node].parent == HoleParent(k)
        invariant !k.Top? ==> 0 <= k.id < nodes.Length && nodes[k.id].color == k.color
        invariant Rearranged(old(nodes[..]), k0, t0, nodes[..], k, t)
        decreases Depth(k)
      {
        ViewFamily(nodes[..], root, k, t);
        var parent := nodes[node].parent;
        ghost var n1, k1, t1 := nodes[..], k, t;
        if parent == nodes[nodes[parent].parent].left {
          node, k, t := InsertStepLeft(node, k, t);
        } else {
          node, k, t := InsertStepRight(node, k, t);
        }
        RearrangedTrans(old(nodes[..]), k0, t0, n1, k1, t1, nodes[..], k, t);
        Surroundings(nodes[..], root, k, t);
      }
      ghost var n1 := nodes[..];
      w := BlackenRoot(k, t);
      RearrangedTrans(old(nodes[..]), k0, t0, n1, k, t, nodes[..], Top, w);
    }

    method BlackenRoot(ghost k: Path, ghost t: Tree) returns (ghost w: Tree)
      requires Rep(nodes[..], root, k, t) && RedFocus(k, t) && !HoleUnderRed(k)
      modifies nodes
      ensures Rep(nodes[..], root, Top, w) && RedBlack(w)
      ensures Rearranged(old(nodes[..]), k, t, nodes[..], Top, w)
    {
      w := Plug(k, t);
      ZoomToTop(nodes[..], root, k, t);
      InsertDone(k, t);
      Surroundings(nodes[..], root, Top, w);
      PaintAt(root, Black, Top, w);
      w := Blacken(w);
    }

    // A red sibling is rotated above the owner; the new sibling is black.
    method LiftSiblingLeft(parent: int, other: int, ghost k: Path, ghost t: Tree)
      requires Rep(nodes[..], root, k, t) && Deficit(k, t) && k.LeftOf?
      requires k.id == parent && Sibling(k).Fork? && Sibling(k).color == Red && Sibling(k).id == other
      modifies nodes, this`root
      ensures Rep(nodes[..], root, UnderSibling(k), t) && Deficit(UnderSibling(k), t)
      ensures IsBlack(Sibling(UnderSibling(k)))
      ensures Rearranged(old(nodes[..]), k, t, nodes[..], UnderSibling(k), t)
    {
      ghost var k1 := WithSibling(k, Sibling(k).(color := Black));
      ghost var k2 := WithColor(k1, Red);
      PaintOther(other, Black, k, t);
      PaintParent(parent, Red, k1, t);
      ZoomOut(nodes[..], root, k2, t);
      assert Ids(Attach(k2, t)) + PathIds(k.up) == Ids(t) + PathIds(k);
      RotateLeft(parent, k.up, Attach(k2, t));
      ghost var w := RotLeft(Attach(k2, t));
      ZoomLeft(nodes[..], root, k.up, w);
      ZoomLeft(nodes[..], root, UnderSibling(k).up, w.left);
      UnderSiblingOk(k, t);
      UnderSiblingOrder(k, t);
    }

    // A red sibling is rotated above the owner; the new sibling is black.
    method LiftSiblingRight(parent: int, other: int, ghost k: Path, ghost t: Tree)
      requires Rep(nodes[..], root, k, t) && Deficit(k, t) && k.RightOf?
      requires k.id == parent && Sibling(k).Fork? && Sibling(k).color == Red && Sibling(k).id == other
      modifies nodes, this`root
      ensures Rep(nodes[..], root, UnderSibling(k), t) && Deficit(UnderSibling(k), t)
      ensures IsBlack(Sibling(UnderSibling(k)))
      ensures Rearranged(old(nodes[..]), k, t, nodes[..], UnderSibling(k), t)
    {
      ghost var k1 := WithSibling(k, Sibling(k).(color := Black));
      ghost var k2 := WithColor(k1, Red);
      PaintOther(other, Black, k, t);
      PaintParent(parent, Red, k1, t);
      ZoomOut(nodes[..], root, k2, t);
      assert Ids(Attach(k2, t)) + PathIds(k.up) == Ids(t) + PathIds(k);
      RotateRight(parent, k.up, Attach(k2, t));
      ghost var w := RotRight(Attach(k2, t));
      ZoomRight(nodes[..], root, k.up, w);
      ZoomRight(nodes[..], root, UnderSibling(k).up, w.right);
      UnderSiblingOk(k, t);
      UnderSiblingOrder(k, t);
    }

    // The red nephew on the inner side is rotated to the outer side.
    method TurnNephewLeft(other: int, ghost k: Path, ghost t: Tree)
      requires Rep(nodes[..], root, k, t) && Deficit(k, t) && k.LeftOf?
      requires Sibling(k).Fork? && Sibling(k).color == Black && Sibling(k).id == other
      requires Sibling(k).left.Fork? && Sibling(k).left.color == Red && IsBlack(Sibling(k).right)
      modifies nodes, this`root
      ensures Rep(nodes[..], root, WithSibling(k, OuterRed(k)), t)
      ensures Deficit(WithSibling(k, OuterRed(k)), t)
      ensures Rearranged(old(nodes[..]), k, t, nodes[..], WithSibling(k, OuterRed(k)), t)
    {
      ghost var a, s := Across(k, t), Sibling(k);
      ghost var n := s.left.(color := Black);
      ZoomAcross(nodes[..], root, k, t);
      assert Ids(s) + PathIds(a) == Ids(t) + PathIds(k);
      Surroundings(nodes[..], root, a, s);
      ZoomLeft(nodes[..], root, a, s);
      Surroundings(nodes[..], root, LeftOf(a, s.color, s.id, s.right), s.left);
      PaintAt(nodes[other].left, Black, LeftOf(a, s.color, s.id, s.right), s.left);
      ZoomOut(nodes[..], root, LeftOf(a, s.color, s.id, s.right), n);
      PaintAt(other, Red, a, s.(left := n));
      RotateRight(other, a, s.(left := n, color := Red));
      ZoomAcross(nodes[..], root, a, OuterRed(k));
      OuterRedOk(k, t);
      OuterRedOrder(k, t);
    }

    // The red nephew on the inner side is rotated to the outer side.
    method TurnNephewRight(other: int, ghost k: Path, ghost t: Tree)
      requires Rep(nodes[..], root, k, t) && Deficit(k, t) && k.RightOf?
      requires Sibling(k).Fork? && Sibling(k).color == Black && Sibling(k).id == other
      requires Sibling(k).right.Fork? && Sibling(k).right.color == Red && IsBlack(Sibling(k).left)
      modifies nodes, this`root
      ensures Rep(nodes[..], root, WithSibling(k, OuterRed(k)), t)
      ensures Deficit(WithSibling(k, OuterRed(k)), t)
      ensures Rearranged(old(nodes[..]), k, t, nodes[..], WithSibling(k, OuterRed(k)), t)
    {
      ghost var a, s := Across(k, t), Sibling(k);
      ghost var n := s.right.(color := Black);
      ZoomAcross(nodes[..], root, k, t);
      assert Ids(s) + PathIds(a) == Ids(t) + PathIds(k);
      Surroundings(nodes[..], root, a, s);
      ZoomRight(nodes[..], root, a, s);
      Surroundings(nodes[..], root, RightOf(a, s.color, s.left, s.id), s.right);
      PaintAt(nodes[other].right, Black, RightOf(a, s.color, s.left, s.id), s.right);
      ZoomOut(nodes[..], root, RightOf(a, s.color, s.left, s.id), n);
      PaintAt(other, Red, a, s.(right := n));
      RotateLeft(other, a, s.(right := n, color := Red));
      ZoomAcross(nodes[..], root, a, OuterRed(k));
      OuterRedOk(k, t);
      OuterRedOrder(k, t);
    }

    // The last rotation: the sibling takes the owner's place and colour.
    method SettleLeft(parent: int, other: int, ghost k: Path, ghost t: Tree)
      requires Rep(nodes[..], root, k, t) && Deficit(k, t) && IsBlack(t) && k.LeftOf?
      requires k.id == parent && Sibling(k).Fork? && Sibling(k).color == Black && Sibling(k).id == other
      requires Sibling(k).right.Fork? && Sibling(k).right.color == Red
      modifies nodes, this`root
      ensures Rep(nodes[..], root, k.up, Settled(k, t)) && RedBlack(Plug(k.up, Settled(k, t)))
      ensures Rearranged(old(nodes[..]), k, t, nodes[..], k.up, Settled(k, t))
    {
      ghost var s := Sibling(k).(color := k.color);
      ghost var n := s.right.(color := Black);
      Surroundings(nodes[..], root, k, t);
      PaintOther(other, nodes[parent].color, k, t);
      ghost var k1 := WithSibling(k, s);
      PaintParent(parent, Black, k1, t);
      ghost var k2 := WithColor(k1, Black);
      ghost var a := Across(k2, t);
      ZoomAcross(nodes[..], root, k2, t);
      Surroundings(nodes[..], root, a, s);
      ZoomRight(nodes[..], root, a, s);
      Surroundings(nodes[..], root, RightOf(a, s.color, s.left, s.id), s.right);
      PaintAt(nodes[other].right, Black, RightOf(a, s.color, s.left, s.id), s.right);
      ZoomOut(nodes[..], root, RightOf(a, s.color, s.left, s.id), n);
      ZoomOut(nodes[..], root, a, s.(right := n));
      RotateLeft(parent, k.up, Attach(a, s.(right := n)));
      SettledOk(k, t);
      SettledOrder(k, t);
    }

    // The last rotation: the sibling takes the owner's place and colour.
    method SettleRight(parent: int, other: int, ghost k: Path, ghost t: Tree)
      requires Rep(nodes[..], root, k, t) && Deficit(k, t) && IsBlack(t) && k.RightOf?
      requires k.id == parent && Sibling(k).Fork? && Sibling(k).color == Black && Sibling(k).id == other
      requires Sibling(k).left.Fork? && Sibling(k).left.color == Red
      modifies nodes, this`root
      ensures Rep(nodes[..], root, k.up, Settled(k, t)) && RedBlack(Plug(k.up, Settled(k, t)))
      ensures Rearranged(old(nodes[..]), k, t, nodes[..], k.up, Settled(k, t))
    {
      ghost var s := Sibling(k).(color := k.color);
      ghost var n := s.left.(color := Black);
      Surroundings(nodes[..], root, k, t);
      PaintOther(other, nodes[parent].color, k, t);
      ghost var k1 := WithSibling(k, s);
      PaintParent(parent, Black, k1, t);
      ghost var k2 := WithColor(k1, Black);
      ghost var a := Across(k2, t);
      ZoomAcross(nodes[..], root, k2, t);
      Surroundings(nodes[..], root, a, s);
      ZoomLeft(nodes[..], root, a, s);
      Surroundings(nodes[..], root, LeftOf(a, s.color, s.id, s.right), s.left);
      PaintAt(nodes[other].left, Black, LeftOf(a, s.color, s.id, s.right), s.left);
      ZoomOut(nodes[..], root, LeftOf(a, s.color, s.id, s.right), n);
      ZoomOut(nodes[..], root, a, s.(left := n));
      RotateRight(parent, k.up, Attach(a, s.(left := n)));
      SettledOk(k, t);
      SettledOrder(k, t);
    }

    // Two black nephews: the sibling turns red and the deficit moves up.
    method PassUp(parent0: int, other: int, ghost k0: Path, ghost t0: Tree)
        returns (node: int, parent: int, ghost k: Path, ghost t: Tree)
      requires Rep(nodes[..], root, k0, t0) && Deficit(k0, t0) && IsBlack(t0) && !k0.Top? && k0.id == parent0
      requires Sibling(k0).Fork? && Sibling(k0).id == other && Sibling(k0).color == Black
      requires IsBlack(Sibling(k0).left) && IsBlack(Sibling(k0).right)
      modifies nodes
      ensures Rep(nodes[..], root, k, t) && Rearranged(old(nodes[..]), k0, t0, nodes[..], k, t)
      ensures node == HolePtr(nodes[..], root, k) && parent == HoleParent(k) && Deficit(k, t)
      ensures k == k0.up && t.Fork? && t.color == k0.color
    {
      PaintOther(other, Red, k0, t0);
      ghost var k1 := WithSibling(k0, Sibling(k0).(color := Red));
      ZoomOut(nodes[..], root, k1, t0);
      PassUpOk(k0, t0);
      k, t := k0.up, Attach(k1, t0);
      Surroundings(nodes[..], root, k, t);
      node := parent0;
      parent := nodes[node].parent;
    }

    // One iteration of __rb_erase_color, the short subtree being on the left.
    method EraseStepLeft(parent0: int, ghost k0: Path, ghost t0: Tree)
        returns (node: int, parent: int, stop: bool, ghost k: Path, ghost t: Tree)
      requires Rep(nodes[..], root, k0, t0) && Deficit(k0, t0) && IsBlack(t0) && k0.LeftOf? && k0.id == parent0
      requires SiblingView(nodes[..], k0)
      modifies nodes, this`root
      ensures Rep(nodes[..], root, k, t) && Rearranged(old(nodes[..]), k0, t0, nodes[..], k, t)
      ensures node == HolePtr(nodes[..], root, k)
      ensures !stop ==> parent == HoleParent(k) && Deficit(k, t) && Depth(k) <= Depth(k0)
      ensures !stop ==> Depth(k) < Depth(k0) || !IsBlack(t)
      ensures stop ==> Finished(k, t)
    {
      k, t, parent := k0, t0, parent0;
      var other := nodes[parent].right;
      if nodes[other].color == Red {
        LiftSiblingLeft(parent, other, k, t);
        k := UnderSibling(k);
        UnderSiblingOrder(k0, t0);
        ViewSibling(nodes[..], root, k, t);
        other := nodes[parent].right;
      }
      if (nodes[other].left == NIL || nodes[nodes[other].left].color == Black) &&
         (nodes[other].right == NIL || nodes[nodes[other].right].color == Black)
      {
        node, parent, k, t := PassUp(parent, other, k, t);
        stop := false;
      } else {
        k, t := EraseFinishLeft(parent, other, k, t);
        node, stop := root, true;
      }
    }

    method EraseFinishLeft(parent: int, other0: int, ghost k0: Path,
                           ghost t0: Tree) returns (ghost k: Path, ghost t: Tree)
      requires Rep(nodes[..], root, k0, t0) && Deficit(k0, t0) && IsBlack(t0) && k0.LeftOf? && k0.id == parent
      requires SiblingView(nodes[..], k0) && Sibling(k0).id == other0 && Sibling(k0).color == Black
      requires !IsBlack(Sibling(k0).left) || !IsBlack(Sibling(k0).right)
      modifies nodes, this`root
      ensures k.Top? && Rep(nodes[..], root, k, t) && Rearranged(old(nodes[..]), k0, t0, nodes[..], k, t)
      ensures Finished(k, t)
    {
      var other := other0;
      k := k0;
      if nodes[other].right == NIL || nodes[nodes[other].right].color == Black {
        TurnNephewLeft(other, k, t0);
        k := WithSibling(k, OuterRed(k));
        ViewSibling(nodes[..], root, k, t0);
        other := nodes[parent].right;
      }
      ghost var n1 := nodes[..];
      SettleLeft(parent, other, k, t0);
      ZoomToTop(nodes[..], root, k.up, Settled(k, t0));
      t := Plug(k.up, Settled(k, t0));
      assert Rearranged(n1, k, t0, nodes[..], Top, t);
      RearrangedTrans(old(nodes[..]), k0, t0, n1, k, t0, nodes[..], Top, t);
      k := Top;
    }

    // One iteration of __rb_erase_color, the short subtree being on the right.
    method EraseStepRight(parent0: int, ghost k0: Path, ghost t0: Tree)
        returns (node: int, parent: int, stop: bool, ghost k: Path, ghost t: Tree)
      requires Rep(nodes[..], root, k0, t0) && Deficit(k0, t0) && IsBlack(t0) && k0.RightOf? && k0.id == parent0
      requires SiblingView(nodes[..], k0)
      modifies nodes, this`root
      ensures Rep(nodes[..], root, k, t) && Rearranged(old(nodes[..]), k0, t0, nodes[..], k, t)
      ensures node == HolePtr(nodes[..], root, k)
      ensures !stop ==> parent == HoleParent(k) && Deficit(k, t) && Depth(k) <= Depth(k0)
      ensures !stop ==> Depth(k) < Depth(k0) || !IsBlack(t)
      ensures stop ==> Finished(k, t)
    {
      k, t, parent := k0, t0, parent0;
      var other := nodes[parent].left;
      if nodes[other].color == Red {
        LiftSiblingRight(parent, other, k, t);
        k := UnderSibling(k);
        UnderSiblingOrder(k0, t0);
        ViewSibling(nodes[..], root, k, t);
        other := nodes[parent].left;
      }
      if (nodes[other].left == NIL || nodes[nodes[other].left].color == Black) &&
         (nodes[other].right == NIL || nodes[nodes[other].right].color == Black)
      {
        node, parent, k, t := PassUp(parent, other, k, t);
        stop := false;
      } else {
        k, t := EraseFinishRight(parent, other, k, t);
        node, stop := root, true;
      }
    }

    method EraseFinishRight(parent: int, other0: int, ghost k0: Path,
                            ghost t0: Tree) returns (ghost k: Path, ghost t: Tree)
      requires Rep(nodes[..], root, k0, t0) && Deficit(k0, t0) && IsBlack(t0) && k0.RightOf? && k0.id == parent
      requires SiblingView(nodes[..], k0) && Sibling(k0).id == other0 && Sibling(k0).color == Black
      requires !IsBlack(Sibling(k0).left) || !IsBlack(Sibling(k0).right)
      modifies nodes, this`root
      ensures k.Top? && Rep(nodes[..], root, k, t) && Rearranged(old(nodes[..]), k0, t0, nodes[..], k, t)
      ensures Finished(k, t)
    {
      var other := other0;
      k := k0;
      if nodes[other].left == NIL || nodes[nodes[other].left].color == Black {
        TurnNephewRight(other, k, t0);
        k := WithSibling(k, OuterRed(k));
        ViewSibling(nodes[..], root, k, t0);
        other := nodes[parent].left;
      }
      ghost var n1 := nodes[..];
      SettleRight(parent, other, k, t0);
      ZoomToTop(nodes[..], root, k.up, Settled(k, t0));
      t := Plug(k.up, Settled(k, t0));
      assert Rearranged(n1, k, t0, nodes[..], Top, t);
      RearrangedTrans(old(nodes[..]), k0, t0, n1, k, t0, nodes[..], Top, t);
      k := Top;
    }

    // __rb_erase_color: the subtree `t0` at `node0` is one black node short.
    method EraseColor(node0: int, parent0: int, ghost k0: Path, ghost t0: Tree) returns (ghost w: Tree)
      requires Rep(nodes[..], root, k0, t0) && Deficit(k0, t0)
      requires node0 == HolePtr(nodes[..], root, k0) && parent0 == HoleParent(k0)
      modifies nodes, this`root
      ensures Rep(nodes[..], root, Top, w) && RedBlack(w)
      ensures Rearranged(old(nodes[..]), k0, t0, nodes[..], Top, w)
    {
      ghost var k, t := k0, t0;
      var node, parent, stop := node0, parent0, false;
      Surroundings(nodes[..], root, k, t);
      while !stop && (node == NIL || nodes[node].color == Black) && node != root
        invariant Rep(nodes[..], root, k, t) && Rearranged(old(nodes[..]), k0, t0, nodes[..], k, t)
        invariant node == HolePtr(nodes[..], root, k)
        invariant t.Leaf? <==> node == NIL
        invariant t.Fork? ==> 0 <= node < nodes.Length && nodes[node].color == t.color
        invariant !stop ==> parent == HoleParent(k) && Deficit(k, t)
        invariant stop ==> Finished(k, t)
        decreases if stop then 0 else 1, Depth(k), if IsBlack(t) then 1 else 0
      {
        ViewSibling(nodes[..], root, k, t);
        ghost var n1, k1, t1 := nodes[..], k, t;
        if nodes[parent].left == node {
          node, parent, stop, k, t := EraseStepLeft(parent, k, t);
        } else {
          node, parent, stop, k, t := EraseStepRight(parent, k, t);
        }
        RearrangedTrans(old(nodes[..]), k0, t0, n1, k1, t1, nodes[..], k, t);
        Surroundings(nodes[..], root, k, t);
      }
      if !stop {
        RootAtTop(nodes[..], root, k, t);
        DeficitDone(k, t);
      }
      ghost var n1 := nodes[..];
      w := PaintLast(node, k, t);
      RearrangedTrans(old(nodes[..]), k0, t0, n1, k, t, nodes[..], Top, w);
    }

    method PaintLast(node: int, ghost k: Path, ghost t: Tree) returns (ghost w: Tree)
      requires Rep(nodes[..], root, k, t) && Finished(k, t) && node == HolePtr(nodes[..], root, k)
      modifies nodes
      ensures Rep(nodes[..], root, Top, w) && RedBlack(w)
      ensures Rearranged(old(nodes[..]), k, t, nodes[..], Top, w)
    {
      Surroundings(nodes[..], root, k, t);
      if node != NIL {
        PaintAt(node, Black, k, t);
      }
      w := Plug(k, Blacken(t));
      ZoomToTop(nodes[..], root, k, Blacken(t));
      FinishedOrder(k, t);
    }

    // The leftmost node of the right subtree.
    method Successor(z: int, ghost k: Path, ghost t: Tree) returns (node: int, ghost f: Path, ghost s: Tree)
      requires Rep(nodes[..], root, k, t) && t.Fork? && t.id == z && t.right.Fork?
      ensures Rep(nodes[..], root, f, s) && s.Fork? && s.id == node && s.left.Leaf? && Plug(f, s) == Plug(k, t)
      ensures Descent(k, t.color, t.left, z, f) && Inorder(s) + After(f) == Inorder(t.right) + After(k)
      ensures 0 <= node < nodes.Length && 0 <= z < nodes.Length
    {
      FocusFacts(nodes[..], root, k, t);
      node := nodes[z].right;
      f, s := RightOf(k, t.color, t.left, z), t.right;
      ZoomRight(nodes[..], root, k, t);
      Surroundings(nodes[..], root, f, s);
      while nodes[node].left != NIL
        invariant Rep(nodes[..], root, f, s) && s.Fork? && s.id == node && Plug(f, s) == Plug(k, t)
        invariant 0 <= node < nodes.Length
        invariant Descent(k, t.color, t.left, z, f) && Inorder(s) + After(f) == Inorder(t.right) + After(k)
        decreases s
      {
        FocusFacts(nodes[..], root, f, s);
        ShapeRoot(nodes[..], node, nodes[node].left, s.left);
        ZoomLeft(nodes[..], root, f, s);
        node := nodes[node].left;
        DescendOrder(f, s);
        f, s := LeftOf(f, s.color, s.id, s.right), s.left;
      }
      Surroundings(nodes[..], root, f, s);
      ShapeRoot(nodes[..], node, nodes[node].left, s.left);
    }

    // rb_erase, two children: the successor takes the node's place.
    method Transplant(z: int, ghost k: Path, ghost t: Tree)
        returns (child: int, parent: int, color: Color, ghost f: Path, ghost c: Tree)
      requires Rep(nodes[..], root, k, t) && t.Fork? && t.id == z && t.left.Fork? && t.right.Fork?
      requires RedBlack(Plug(k, t))
      modifies nodes, this`root
      ensures Rep(nodes[..], root, f, c) && child == HolePtr(nodes[..], root, f) && parent == HoleParent(f)
      ensures Repairable(color, f, c) && Removed(k, t, f, c)
      ensures SameEntries(old(nodes[..]), nodes[..])
      ensures OnlyTouched(old(nodes[..]), nodes[..], Ids(t) + PathIds(k) - {z})
    {
      ghost var n0 := nodes[..];
      var node;
      ghost var g, s;
      node, g, s := Successor(z, k, t);
      SurgeryReady(n0, root, k, t, g, s);
      child, parent, color := Replace(z, node, k);
      TransplantRep(n0, nodes[..], old(root), root, k, t, g, s);
      TransplantTouches(n0, nodes[..], old(root), root, k, t, g, s);
      f, c := RenamedPath(g, z, node), s.right;
      DescentFacts(k, t.color, t.left, z, g);
      UnplugOk(g, s);
      TransplantBalance(g, s, z, f);
      TransplantOrder(n0, old(root), k, t, g, s, f);
      Surroundings(nodes[..], root, f, c);
      FocusFacts(n0, old(root), g, s);
    }

    method Replace(z: int, node: int, ghost k: Path) returns (child: int, parent: int, color: Color)
      requires Surgery(nodes[..], k, z, node)
      modifies nodes, this`root
      ensures Transplanted(old(nodes[..]), nodes[..], old(root), root, k, z, node)
      ensures child == old(nodes[node].right) && color == old(nodes[node].color)
      ensures parent == if old(nodes[node].parent) == z then node else old(nodes[node].parent)
      ensures SameEntries(old(nodes[..]), nodes[..])
    {
      SurgeryDone(nodes[..], root, if k.Top? then node else root, k, z, node);
      HangAt(z, node, k);
      child, parent, color := Detach(z, node);
      Adopt(z, node);
    }

    method HangAt(z: int, node: int, ghost k: Path)
      requires 0 <= z < nodes.Length && nodes[z].parent == HoleParent(k) && (k.Top? || 0 <= k.id < nodes.Length)
      requires k.LeftOf? ==> nodes[k.id].left == z
      requires k.RightOf? ==> nodes[k.id].left != z
      modifies nodes, this`root
      ensures nodes[..] == Hung(old(nodes[..]), k, node)
      ensures root == if k.Top? then node else old(root)
    {
      if nodes[z].parent != NIL {
        if nodes[nodes[z].parent].left == z {
          SetLeft(nodes[z].parent, node);
        } else {
          SetRight(nodes[z].parent, node);
        }
      } else {
        root := node;
      }
    }

    method Detach(z: int, node: int) returns (child: int, parent: int, color: Color)
      requires 0 <= z < nodes.Length && 0 <= node < nodes.Length && z != node
      requires 0 <= nodes[node].parent < nodes.Length && 0 <= nodes[z].right < nodes.Length
      requires nodes[node].right == NIL || 0 <= nodes[node].right < nodes.Length
      requires nodes[node].right !in {z, node} && nodes[node].parent != node
      modifies nodes
      ensures nodes[..] == Detached(old(nodes[..]), z, node)
      ensures child == old(nodes[node].right) && color == old(nodes[node].color)
      ensures parent == if old(nodes[node].parent) == z then node else old(nodes[node].parent)
    {
      child := nodes[node].right;
      parent := nodes[node].parent;
      color := nodes[node].color;
      if parent == z {
        parent := node;
      } else {
        if child != NIL {
          SetParent(child, parent);
        }
        SetLeft(parent, child);
        SetRight(node, nodes[z].right);
        SetParent(nodes[z].right, node);
      }
    }

    method Adopt(z: int, node: int)
      requires 0 <= z < nodes.Length && 0 <= node < nodes.Length && z != node && 0 <= nodes[z].left < nodes.Length
      modifies nodes
      ensures nodes[..] == Adopted(old(nodes[..]), z, node)
    {
      SetParent(node, nodes[z].parent);
      SetColor(node, nodes[z].color);
      SetLeft(node, nodes[z].left);
      SetParent(nodes[z].left, node);
    }

    // rb_erase: the node `z` leaves the tree; its own record is not written.
    method Erase(z: int, ghost k: Path, ghost t: Tree) returns (ghost w: Tree)
      requires Rep(nodes[..], root, k, t) && t.Fork? && t.id == z && RedBlack(Plug(k, t))
      modifies nodes, this`root
      ensures Rep(nodes[..], root, Top, w) && RedBlack(w)
      ensures Inorder(w) == Before(k) + Inorder(t.left) + Inorder(t.right) + After(k)
      ensures Ids(w) == Ids(t) + PathIds(k) - {z}
      ensures SameEntries(old(nodes[..]), nodes[..])
      ensures OnlyTouched(old(nodes[..]), nodes[..], Ids(w))
    {
      var child, parent, color;
      ghost var f, c;
      child, parent, color, f, c := TakeOut(z, k, t);
      w := Repair(child, parent, color, f, c);
    }

    method TakeOut(z: int, ghost k: Path, ghost t: Tree)
        returns (child: int, parent: int, color: Color, ghost f: Path, ghost c: Tree)
      requires Rep(nodes[..], root, k, t) && t.Fork? && t.id == z && RedBlack(Plug(k, t))
      modifies nodes, this`root
      ensures Rep(nodes[..], root, f, c) && child == HolePtr(nodes[..], root, f) && parent == HoleParent(f)
      ensures Repairable(color, f, c) && Removed(k, t, f, c)
      ensures SameEntries(old(nodes[..]), nodes[..])
      ensures OnlyTouched(old(nodes[..]), nodes[..], Ids(t) + PathIds(k) - {z})
    {
      FocusFacts(nodes[..], root, k, t);
      ShapeRoot(nodes[..], z, nodes[z].left, t.left);
      if nodes[z].left == NIL {
        child, parent, color := Unlink(z, nodes[z].right, k, t, t.right);
        f, c := k, t.right;
      } else if nodes[z].right == NIL {
        child, parent, color := Unlink(z, nodes[z].left, k, t, t.left);
        f, c := k, t.left;
      } else {
        child, parent, color, f, c := Transplant(z, k, t);
      }
    }

    // rb_erase, at most one child: the child takes the node's place.
    method Unlink(z: int, child0: int, ghost k: Path, ghost t: Tree, ghost c: Tree)
        returns (child: int, parent: int, color: Color)
      requires Rep(nodes[..], root, k, t) && t.Fork? && t.id == z && RedBlack(Plug(k, t)) && Lone(t, c)
      requires Shape(nodes[..], z, child0, c)
      modifies nodes, this`root
      ensures Rep(nodes[..], root, k, c) && child == HolePtr(nodes[..], root, k) && parent == HoleParent(k)
      ensures Repairable(color, k, c) && Removed(k, t, k, c)
      ensures SameEntries(old(nodes[..]), nodes[..])
      ensures OnlyTouched(old(nodes[..]), nodes[..], Ids(t) + PathIds(k) - {z})
    {
      ghost var n0 := nodes[..];
      FocusFacts(n0, root, k, t);
      Surroundings(n0, root, k, t);
      ShapeRoot(n0, z, child0, c);
      child := child0;
      parent := nodes[z].parent;
      color := nodes[z].color;
      if child != NIL {
        SetParent(child, parent);
      }
      if parent != NIL {
        if nodes[parent].left == z {
          SetLeft(parent, child);
        } else {
          SetRight(parent, child);
        }
      } else {
        root := child;
      }
      assert Spliced(n0, nodes[..], old(root), root, k, child);
      SpliceRep(n0, nodes[..], old(root), root, k, t, c, child);
      SpliceResult(k, t, c);
    }

    method Repair(child: int, parent: int, color: Color, ghost f: Path, ghost c: Tree) returns (ghost w: Tree)
      requires Rep(nodes[..], root, f, c) && child == HolePtr(nodes[..], root, f) && parent == HoleParent(f)
      requires Repairable(color, f, c)
      modifies nodes, this`root
      ensures Rep(nodes[..], root, Top, w) && RedBlack(w)
      ensures Rearranged(old(nodes[..]), f, c, nodes[..], Top, w)
    {
      if color == Black {
        RepairableDeficit(f, c);
        w := EraseColor(child, parent, f, c);
      } else {
        ZoomToTop(nodes[..], root, f, c);
        w := Plug(f, c);
      }
    }

    // rb_link_node
    method LinkNode(x: int, parent: int, left: bool, ghost k: Path)
      requires 0 <= x < nodes.Length && (k.Top? || (0 <= k.id < nodes.Length && k.id != x))
      requires parent == HoleParent(k) && (!k.Top? ==> left == k.LeftOf?)
      modifies nodes, this`root
      ensures nodes[x].parent == parent && nodes[x].color == Red && nodes[x].left == NIL && nodes[x].right == NIL
      ensures Relinked(old(nodes[..]), nodes[..], old(root), root, k, x)
      ensures OnlyTouched(old(nodes[..]), nodes[..], {x, HoleParent(k)})
      ensures SameEntries(old(nodes[..]), nodes[..])
    {
      SetParent(x, parent);
      SetColor(x, Red);
      SetLeft(x, NIL);
      SetRight(x, NIL);
      if parent == NIL {
        root := x;
      } else if left {
        SetLeft(parent, x);
      } else {
        SetRight(parent, x);
      }
    }
  }
}
