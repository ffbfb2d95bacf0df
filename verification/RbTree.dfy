module RbTree {
  import opened Common
  import opened RbZipper
  import opened RbBalance

  /** struct rb_root. */
  class Root {
    var root: Node?
    ghost var nodes: set<Node>
    ghost var tree: Tree

    /** RB_ROOT. */
    constructor ()
      ensures Valid() && nodes == {} && tree == Leaf
    {
      root, nodes, tree := null, {}, Leaf;
    }

    /** The nodes are laid out as the tree `Plug(c, t)`. */
    ghost predicate Here(c: Path, t: Tree)
      reads this, nodes
    {
      At(Read(nodes), root, c, t) && nodes == Nodes(t) + Above(c)
    }

    /** A red-black tree laid out under `root`. */
    ghost predicate Valid()
      reads this, nodes
    {
      Here(Top, tree) && RedBlack(tree)
    }

    /** The nodes from left to right. */
    ghost function Order(): seq<Node>
      reads this
    {
      InOrder(tree)
    }

    lemma Focus(c: Path, t: Tree)
      requires !c.Top?
      ensures Here(c, t) <==> Here(c.up, Up(c, t))
    {
      MoveUp(Read(nodes), root, c, t);
    }

    /** What the fields of a node say about its children. */
    lemma LookAt(c: Path, t: Tree)
      requires Here(c, t) && t.Branch?
      ensures t.node.left == Addr(t.left) && t.node.right == Addr(t.right) && t.node.parent == Hole(c)
      ensures IsRed(t) <==> t.node.red
      ensures IsRed(t.left) <==> t.node.left != null && t.node.left.red
      ensures IsRed(t.right) <==> t.node.right != null && t.node.right.red
      ensures RedAbove(c) <==> t.node.parent != null && t.node.parent.red
      ensures t.left.Branch? ==> t.node.left != t.node.right
      ensures !c.Top? ==> (c.GoLeft? <==> c.node.left == t.node) && (c.GoRight? <==> c.node.right == t.node)
    {
      assert IsTree(Read(nodes), t.left, t.node) && IsTree(Read(nodes), t.right, t.node);
    }

    /** The nodes around a node are different ones. */
    lemma LookAround(c: Path, t: Tree)
      requires Here(c, t) && t.Branch?
      ensures Distinct(t) && Nodes(t) !! Above(c) && t.node in nodes && t.node !in Above(c)
      ensures !c.Top? ==> c.node in nodes
      ensures forall d :: d in {t.left, t.right} && d.Branch? ==>
        d.node in nodes && d.node != t.node && d.node != Hole(c) && d.node.parent == t.node
    {
      assert IsTree(Read(nodes), t.left, t.node) && IsTree(Read(nodes), t.right, t.node);
    }

    method RotateLeft(node: Node)
      requires node.right != null && Apart(node, node.right, node.right.left, node.parent)
      modifies this`root, node`right, node`parent, node.right`left, node.right`parent
      modifies (if node.right.left == null then {} else {node.right.left})`parent
      modifies (if node.parent == null then {} else {node.parent})`left
      modifies (if node.parent == null then {} else {node.parent})`right
      ensures root == if old(node.parent) == null then old(node.right) else old(root)
      ensures node.right == old(node.right.left) && node.parent == old(node.right)
      ensures old(node.right).left == node && old(node.right).parent == old(node.parent)
      ensures old(node.right.left) != null ==> old(node.right.left).parent == node
      ensures old(node.parent) != null ==>
        && old(node.parent).left == (if old(node.parent.left) == node then old(node.right) else old(node.parent.left))
        && old(node.parent).right == (if old(node.parent.left) == node then old(node.parent.right) else old(node.right))
    {
      var right := node.right;
      var parent := node.parent;
      node.right := right.left;
      if node.right != null {
        right.left.parent := node;
      }
      right.left := node;
      right.parent := parent;
      if parent != null {
        if node == parent.left {
          parent.left := right;
        } else {
          parent.right := right;
        }
      } else {
        root := right;
      }
      node.parent := right;
    }

    method RotateRight(node: Node)
      requires node.left != null && Apart(node, node.left, node.left.right, node.parent)
      modifies this`root, node`left, node`parent, node.left`right, node.left`parent
      modifies (if node.left.right == null then {} else {node.left.right})`parent
      modifies (if node.parent == null then {} else {node.parent})`left
      modifies (if node.parent == null then {} else {node.parent})`right
      ensures root == if old(node.parent) == null then old(node.left) else old(root)
      ensures node.left == old(node.left.right) && node.parent == old(node.left)
      ensures old(node.left).right == node && old(node.left).parent == old(node.parent)
      ensures old(node.left.right) != null ==> old(node.left.right).parent == node
      ensures old(node.parent) != null ==>
        && old(node.parent).right == (if old(node.parent.right) == node then old(node.left) else old(node.parent.right))
        && old(node.parent).left == (if old(node.parent.right) == node then old(node.parent.left) else old(node.left))
    {
      var left := node.left;
      var parent := node.parent;
      node.left := left.right;
      if node.left != null {
        left.right.parent := node;
      }
      left.right := node;
      left.parent := parent;
      if parent != null {
        if node == parent.right {
          parent.right := left;
        } else {
          parent.left := left;
        }
      } else {
        root := left;
      }
      node.parent := left;
    }

    method TurnLeft(node: Node, ghost c: Path, ghost t: Tree) returns (ghost t': Tree)
      requires Here(c, t) && t.Branch? && t.node == node && t.right.Branch?
      modifies this`root, nodes
      ensures t' == RotL(t) && Here(c, t')
    {
      t' := RotL(t);
      AroundLeft(Read(nodes), root, c, t);
      ghost var m := Read(nodes);
      RotateLeft(node);
      RotatedLeft(m, Read(nodes), old(root), c, t);
      RotatedNodes(t);
    }

    method TurnRight(node: Node, ghost c: Path, ghost t: Tree) returns (ghost t': Tree)
      requires Here(c, t) && t.Branch? && t.node == node && t.left.Branch?
      modifies this`root, nodes
      ensures t' == RotR(t) && Here(c, t')
    {
      t' := RotR(t);
      AroundRight(Read(nodes), root, c, t);
      ghost var m := Read(nodes);
      RotateRight(node);
      RotatedRight(m, Read(nodes), old(root), c, t);
      RotatedNodes(t);
    }

    method SetRed(node: Node, red: bool, ghost c: Path, ghost t: Tree) returns (ghost t': Tree)
      requires Here(c, t) && t.Branch? && t.node == node
      modifies node`red
      ensures t' == t.(red := red) && Here(c, t')
    {
      ghost var m := Read(nodes);
      node.red := red;
      t' := t.(red := red);
      Recoloured(m, Read(nodes), root, c, t, red);
    }

    // ----- rb_insert_color

    /** The case of a red uncle. */
    method PushBlackDown(parent: Node, gparent: Node, uncle: Node, ghost c: Path, ghost t: Tree)
      returns (ghost t': Tree)
      requires Here(c, t) && !c.Top? && Sibling(c).Branch? && t.Branch?
      requires parent == t.node && gparent == c.node && uncle == Sibling(c).node
      modifies this`root, nodes
      ensures t' == PushedDown(c, t) && Here(c.up, t')
    {
      Focus(c, t);
      ghost var u := Sibling(c);
      ghost var cu := if c.GoLeft? then GoRight(t, gparent, c.red, c.up) else GoLeft(gparent, c.red, t, c.up);
      Focus(cu, u);
      ghost var u' := SetRed(uncle, false, cu, u);
      Focus(cu, u');
      ghost var cp := if c.GoLeft? then GoLeft(gparent, c.red, u', c.up) else GoRight(u', gparent, c.red, c.up);
      Focus(cp, t);
      ghost var p' := SetRed(parent, false, cp, t);
      Focus(cp, p');
      t' := SetRed(gparent, true, c.up, Up(cp, p'));
    }

    /** One round of the loop where the parent is a left child. */
    method InsertLeft(node0: Node, parent0: Node, gparent: Node, ghost c: Path, ghost t: Tree)
      returns (node: Node, ghost c': Path, ghost t': Tree)
      requires Here(c, t) && RedAt(c, t) && t.node == node0 && RedAbove(c)
      requires c.node == parent0 && c.up.GoLeft? && c.up.node == gparent
      modifies this`root, nodes
      ensures Here(c', t') && RedAt(c', t') && t'.node == node
      ensures Depth(c') < Depth(c) && InOrder(Plug(c', t')) == InOrder(Plug(c, t))
    {
      hide At;
      node := node0;
      var parent := parent0;
      ghost var up, u := c.up.up, c.up.right;
      Focus(c, t);
      Focus(c.up, Up(c, t));
      LookAt(c.up, Up(c, t));
      LookAt(up, Up(c.up, Up(c, t)));
      var uncle := gparent.right;
      if uncle != null && uncle.red {
        t' := PushBlackDown(parent, gparent, uncle, c.up, Up(c, t));
        PushedDownOk(c, t);
        SameOrder(up, Up(c.up, Up(c, t)), t');
        return gparent, up, t';
      }
      ghost var p := Up(c, t);
      if parent.right == node {
        assert c.GoRight?;
        p := TurnLeft(parent, c.up, p);
        node, parent := parent, node;
        RotateOrder(Up(c, t));
      }
      TurnedRightOk(up, p, gparent, u);
      SameOrder(c.up, Up(c, t), p);
      c', t' := DropRight(parent, gparent, c.up, p);
    }

    /** The black parent is turned above the red grandparent. */
    method DropRight(parent: Node, gparent: Node, ghost c: Path, ghost p: Tree) returns (ghost c': Path, ghost t': Tree)
      requires Here(c, p) && c.GoLeft? && c.node == gparent && p.Branch? && p.node == parent
      modifies this`root, nodes
      ensures c' == GoLeft(parent, false, Branch(p.right, gparent, true, c.right), c.up) && t' == p.left
      ensures Here(c', t') && InOrder(Plug(c', t')) == InOrder(Plug(c, p))
    {
      hide At;
      ghost var p' := SetRed(parent, false, c, p);
      Focus(c, p');
      ghost var g := SetRed(gparent, true, c.up, Up(c, p'));
      ghost var g' := TurnRight(gparent, c.up, g);
      RotateOrder(g);
      c', t' := GoLeft(parent, false, g'.right, c.up), g'.left;
      Focus(c', t');
      SameOrder(c.up, Up(c, p), g');
    }

    /** One round of the loop where the parent is a right child. */
    method InsertRight(node0: Node, parent0: Node, gparent: Node, ghost c: Path, ghost t: Tree)
      returns (node: Node, ghost c': Path, ghost t': Tree)
      requires Here(c, t) && RedAt(c, t) && t.node == node0 && RedAbove(c)
      requires c.node == parent0 && c.up.GoRight? && c.up.node == gparent
      modifies this`root, nodes
      ensures Here(c', t') && RedAt(c', t') && t'.node == node
      ensures Depth(c') < Depth(c) && InOrder(Plug(c', t')) == InOrder(Plug(c, t))
    {
      hide At;
      node := node0;
      var parent := parent0;
      ghost var up, u := c.up.up, c.up.left;
      Focus(c, t);
      Focus(c.up, Up(c, t));
      LookAt(c.up, Up(c, t));
      LookAt(up, Up(c.up, Up(c, t)));
      var uncle := gparent.left;
      if uncle != null && uncle.red {
        t' := PushBlackDown(parent, gparent, uncle, c.up, Up(c, t));
        PushedDownOk(c, t);
        SameOrder(up, Up(c.up, Up(c, t)), t');
        return gparent, up, t';
      }
      ghost var p := Up(c, t);
      if parent.left == node {
        assert c.GoLeft?;
        p := TurnRight(parent, c.up, p);
        node, parent := parent, node;
        RotateOrder(Up(c, t));
      }
      TurnedLeftOk(up, p, gparent, u);
      SameOrder(c.up, Up(c, t), p);
      c', t' := DropLeft(parent, gparent, c.up, p);
    }

    method DropLeft(parent: Node, gparent: Node, ghost c: Path, ghost p: Tree) returns (ghost c': Path, ghost t': Tree)
      requires Here(c, p) && c.GoRight? && c.node == gparent && p.Branch? && p.node == parent
      modifies this`root, nodes
      ensures c' == GoRight(Branch(c.left, gparent, true, p.left), parent, false, c.up) && t' == p.right
      ensures Here(c', t') && InOrder(Plug(c', t')) == InOrder(Plug(c, p))
    {
      hide At;
      ghost var p' := SetRed(parent, false, c, p);
      Focus(c, p');
      ghost var g := SetRed(gparent, true, c.up, Up(c, p'));
      ghost var g' := TurnLeft(gparent, c.up, g);
      RotateOrder(g);
      c', t' := GoRight(g'.left, parent, false, c.up), g'.right;
      Focus(c', t');
      SameOrder(c.up, Up(c, p), g');
    }

    method InsertColor(node0: Node, ghost c0: Path, ghost t0: Tree) returns (ghost t': Tree)
      requires Here(c0, t0) && RedAt(c0, t0) && t0.node == node0
      modifies this`root, nodes
      ensures Here(Top, t') && RedBlack(t') && InOrder(t') == InOrder(Plug(c0, t0))
    {
      hide At;
      var node := node0;
      ghost var c, t := c0, t0;
      LookAt(c, t);
      while node.parent != null && node.parent.red
        invariant Here(c, t) && RedAt(c, t) && t.node == node
        invariant node.parent == Hole(c) && (RedAbove(c) <==> node.parent != null && node.parent.red)
        invariant nodes == old(nodes) && InOrder(Plug(c, t)) == InOrder(Plug(c0, t0))
        decreases Depth(c)
      {
        var parent := node.parent;
        Focus(c, t);
        LookAt(c.up, Up(c, t));
        var gparent := parent.parent;
        Focus(c.up, Up(c, t));
        LookAt(c.up.up, Up(c.up, Up(c, t)));
        if parent == gparent.left {
          node, c, t := InsertLeft(node, parent, gparent, c, t);
        } else {
          node, c, t := InsertRight(node, parent, gparent, c, t);
        }
        LookAt(c, t);
      }
      PlugRedBlack(c, t);
      MoveToTop(Read(nodes), root, c, t);
      BlackenedRoot(Plug(c, t));
      RootIsTop(Plug(c, t));
      t' := SetRed(root, false, Top, Plug(c, t));
    }

    lemma RootIsTop(t: Tree)
      requires Here(Top, t)
      ensures root == Addr(t)
    {
    }

    // ----- __rb_erase_color

    /** One round of the loop where the short subtree is a left child. */
    method EraseLeft(node: Node?, parent: Node, ghost c0: Path, ghost t: Tree)
      returns (done: bool, ghost c': Path, ghost t': Tree)
      requires Here(c0, t) && Short(c0, t) && Addr(t) == node && !IsRed(t) && c0.GoLeft? && c0.node == parent
      modifies this`root, nodes
      ensures Here(c', t') && Short(c', t') && InOrder(Plug(c', t')) == InOrder(Plug(c0, t))
      ensures if done then c'.Top? else Addr(t') == parent && (IsRed(t') || Depth(c') < Depth(c0))
    {
      ghost var c := c0;
      Focus(c, t);
      var other := parent.right;
      if other.red {
        c := RaiseRight(parent, other, c0, t);
        other := parent.right;
      }
      ghost var s, cs := c.right, GoRight(t, parent, c.red, c.up);
      Focus(c, t);
      Focus(cs, s);
      LookAt(cs, s);
      if (other.left == null || !other.left.red) && (other.right == null || !other.right.red) {
        ShortMovedUp(c, t);
        s := SetRed(other, true, cs, s);
        Focus(cs, s);
        SameOrder(c.up, Up(c, t), Up(cs, s));
        return false, c.up, Up(cs, s);
      }
      t' := BorrowRight(parent, other, c, t);
      return true, Top, t';
    }

    /** A red sibling is turned above the parent. */
    method RaiseRight(parent: Node, other: Node, ghost c: Path, ghost t: Tree) returns (ghost c': Path)
      requires Here(c, t) && Short(c, t) && c.GoLeft? && IsRed(c.right) && c.node == parent && c.right.node == other
      modifies this`root, nodes
      ensures c' == GoLeft(c.node, true, c.right.left, GoLeft(c.right.node, false, c.right.right, c.up))
      ensures Here(c', t) && Short(c', t) && !IsRed(c'.right)
      ensures InOrder(Plug(c', t)) == InOrder(Plug(c, t))
    {
      RedSiblingLeft(c, t);
      ghost var cs := GoRight(t, parent, c.red, c.up);
      Focus(c, t);
      Focus(cs, c.right);
      ghost var s := SetRed(other, false, cs, c.right);
      Focus(cs, s);
      ghost var p := SetRed(parent, true, c.up, Up(cs, s));
      ghost var g := TurnLeft(parent, c.up, p);
      c' := GoLeft(c.node, true, c.right.left, GoLeft(c.right.node, false, c.right.right, c.up));
      Focus(c'.up, g.left);
      Focus(c', t);
      RotateOrder(p);
      SameOrder(c.up, Up(c, t), g);
    }

    /** A red nephew lets the parent's side borrow a black node; this ends the loop. */
    method BorrowRight(parent: Node, other0: Node, ghost c0: Path, ghost t: Tree) returns (ghost t': Tree)
      requires Here(c0, t) && Short(c0, t) && !IsRed(t) && c0.GoLeft? && c0.node == parent
      requires c0.right.Branch? && c0.right.node == other0 && !c0.right.red
      requires IsRed(c0.right.left) || IsRed(c0.right.right)
      modifies this`root, nodes
      ensures Here(Top, t') && Short(Top, t') && InOrder(t') == InOrder(Plug(c0, t))
    {
      var other := other0;
      ghost var c := c0;
      ghost var cs := GoRight(t, parent, c.red, c.up);
      Focus(c, t);
      Focus(cs, c.right);
      LookAt(cs, c.right);
      if other.right == null || !other.right.red {
        c := StraightenRight(parent, other, c0, t);
        other := parent.right;
      }
      t' := SettleRight(parent, other, c, t);
    }

    method SettleRight(parent: Node, other: Node, ghost c: Path, ghost t: Tree) returns (ghost t': Tree)
      requires Here(c, t) && Short(c, t) && !IsRed(t) && c.GoLeft? && c.node == parent
      requires c.right.Branch? && c.right.node == other && !c.right.red && IsRed(c.right.right)
      modifies this`root, nodes
      ensures Here(Top, t') && Short(Top, t') && InOrder(t') == InOrder(Plug(c, t))
    {
      hide At;
      FarNephewLeft(c, t);
      ghost var g := LendRight(parent, other, c, t);
      SameOrder(c.up, Up(c, t), g);
      MoveToTop(Read(nodes), root, c.up, g);
      t' := Plug(c.up, g);
    }

    method LendRight(parent: Node, other: Node, ghost c: Path, ghost t: Tree) returns (ghost g: Tree)
      requires Here(c, t) && c.GoLeft? && c.node == parent
      requires c.right.Branch? && c.right.node == other && c.right.right.Branch?
      modifies this`root, nodes
      ensures g == Branch(Branch(t, c.node, false, c.right.left), c.right.node, c.red, Blacken(c.right.right))
      ensures Here(c.up, g)
    {
      ghost var s := c.right;
      ghost var cs := GoRight(t, parent, c.red, c.up);
      Focus(c, t);
      Focus(cs, s);
      ghost var s1 := SetRed(other, parent.red, cs, s);
      Focus(cs, s1);
      ghost var p1 := SetRed(parent, false, c.up, Up(cs, s1));
      ghost var cs1 := GoRight(t, parent, false, c.up);
      ghost var cn := GoRight(s1.left, other, s1.red, cs1);
      Focus(cs1, s1);
      Focus(cn, s1.right);
      ghost var n := SetRed(other.right, false, cn, s1.right);
      Focus(cn, n);
      Focus(cs1, Up(cn, n));
      g := TurnLeft(parent, c.up, Up(cs1, Up(cn, n)));
    }

    /** The near nephew is turned above the sibling. */
    method StraightenRight(parent: Node, other: Node, ghost c: Path, ghost t: Tree) returns (ghost c': Path)
      requires Here(c, t) && Short(c, t) && c.GoLeft? && c.node == parent
      requires c.right.Branch? && c.right.node == other && !c.right.red
      requires IsRed(c.right.left) && !IsRed(c.right.right)
      modifies this`root, nodes
      ensures Here(c', t) && Short(c', t) && c'.GoLeft? && c'.node == parent && c'.up == c.up
      ensures c'.right.Branch? && !c'.right.red && IsRed(c'.right.right)
      ensures InOrder(Plug(c', t)) == InOrder(Plug(c, t))
    {
      NearNephewLeft(c, t);
      ghost var s := c.right;
      ghost var cs := GoRight(t, parent, c.red, c.up);
      ghost var cn := GoLeft(other, false, s.right, cs);
      Focus(c, t);
      Focus(cs, s);
      Focus(cn, s.left);
      ghost var n := SetRed(other.left, false, cn, s.left);
      Focus(cn, n);
      ghost var s1 := SetRed(other, true, cs, Up(cn, n));
      ghost var s2 := TurnRight(other, cs, s1);
      Focus(cs, s2);
      c' := GoLeft(parent, c.red, s2, c.up);
      Focus(c', t);
      SameOrder(c.up, Up(c, t), Up(c', t));
    }

    /** One round of the loop where the short subtree is a right child. */
    method EraseRight(node: Node?, parent: Node, ghost c0: Path, ghost t: Tree)
      returns (done: bool, ghost c': Path, ghost t': Tree)
      requires Here(c0, t) && Short(c0, t) && Addr(t) == node && !IsRed(t) && c0.GoRight? && c0.node == parent
      modifies this`root, nodes
      ensures Here(c', t') && Short(c', t') && InOrder(Plug(c', t')) == InOrder(Plug(c0, t))
      ensures if done then c'.Top? else Addr(t') == parent && (IsRed(t') || Depth(c') < Depth(c0))
    {
      ghost var c := c0;
      Focus(c, t);
      var other := parent.left;
      if other.red {
        c := RaiseLeft(parent, other, c0, t);
        other := parent.left;
      }
      ghost var s, cs := c.left, GoLeft(parent, c.red, t, c.up);
      Focus(c, t);
      Focus(cs, s);
      LookAt(cs, s);
      if (other.left == null || !other.left.red) && (other.right == null || !other.right.red) {
        ShortMovedUp(c, t);
        s := SetRed(other, true, cs, s);
        Focus(cs, s);
        SameOrder(c.up, Up(c, t), Up(cs, s));
        return false, c.up, Up(cs, s);
      }
      t' := BorrowLeft(parent, other, c, t);
      return true, Top, t';
    }

    method RaiseLeft(parent: Node, other: Node, ghost c: Path, ghost t: Tree) returns (ghost c': Path)
      requires Here(c, t) && Short(c, t) && c.GoRight? && IsRed(c.left) && c.node == parent && c.left.node == other
      modifies this`root, nodes
      ensures c' == GoRight(c.left.right, c.node, true, GoRight(c.left.left, c.left.node, false, c.up))
      ensures Here(c', t) && Short(c', t) && !IsRed(c'.left)
      ensures InOrder(Plug(c', t)) == InOrder(Plug(c, t))
    {
      RedSiblingRight(c, t);
      ghost var cs := GoLeft(parent, c.red, t, c.up);
      Focus(c, t);
      Focus(cs, c.left);
      ghost var s := SetRed(other, false, cs, c.left);
      Focus(cs, s);
      ghost var p := SetRed(parent, true, c.up, Up(cs, s));
      ghost var g := TurnRight(parent, c.up, p);
      c' := GoRight(c.left.right, c.node, true, GoRight(c.left.left, c.left.node, false, c.up));
      Focus(c'.up, g.right);
      Focus(c', t);
      RotateOrder(p);
      SameOrder(c.up, Up(c, t), g);
    }

    method BorrowLeft(parent: Node, other0: Node, ghost c0: Path, ghost t: Tree) returns (ghost t': Tree)
      requires Here(c0, t) && Short(c0, t) && !IsRed(t) && c0.GoRight? && c0.node == parent
      requires c0.left.Branch? && c0.left.node == other0 && !c0.left.red
      requires IsRed(c0.left.left) || IsRed(c0.left.right)
      modifies this`root, nodes
      ensures Here(Top, t') && Short(Top, t') && InOrder(t') == InOrder(Plug(c0, t))
    {
      var other := other0;
      ghost var c := c0;
      ghost var cs := GoLeft(parent, c.red, t, c.up);
      Focus(c, t);
      Focus(cs, c.left);
      LookAt(cs, c.left);
      if other.left == null || !other.left.red {
        c := StraightenLeft(parent, other, c0, t);
        other := parent.left;
      }
      t' := SettleLeft(parent, other, c, t);
    }

    method SettleLeft(parent: Node, other: Node, ghost c: Path, ghost t: Tree) returns (ghost t': Tree)
      requires Here(c, t) && Short(c, t) && !IsRed(t) && c.GoRight? && c.node == parent
      requires c.left.Branch? && c.left.node == other && !c.left.red && IsRed(c.left.left)
      modifies this`root, nodes
      ensures Here(Top, t') && Short(Top, t') && InOrder(t') == InOrder(Plug(c, t))
    {
      hide At;
      FarNephewRight(c, t);
      ghost var g := LendLeft(parent, other, c, t);
      SameOrder(c.up, Up(c, t), g);
      MoveToTop(Read(nodes), root, c.up, g);
      t' := Plug(c.up, g);
    }

    method LendLeft(parent: Node, other: Node, ghost c: Path, ghost t: Tree) returns (ghost g: Tree)
      requires Here(c, t) && c.GoRight? && c.node == parent
      requires c.left.Branch? && c.left.node == other && c.left.left.Branch?
      modifies this`root, nodes
      ensures g == Branch(Blacken(c.left.left), c.left.node, c.red, Branch(c.left.right, c.node, false, t))
      ensures Here(c.up, g)
    {
      ghost var s := c.left;
      ghost var cs := GoLeft(parent, c.red, t, c.up);
      Focus(c, t);
      Focus(cs, s);
      ghost var s1 := SetRed(other, parent.red, cs, s);
      Focus(cs, s1);
      ghost var p1 := SetRed(parent, false, c.up, Up(cs, s1));
      ghost var cs1 := GoLeft(parent, false, t, c.up);
      ghost var cn := GoLeft(other, s1.red, s1.right, cs1);
      Focus(cs1, s1);
      Focus(cn, s1.left);
      ghost var n := SetRed(other.left, false, cn, s1.left);
      Focus(cn, n);
      Focus(cs1, Up(cn, n));
      g := TurnRight(parent, c.up, Up(cs1, Up(cn, n)));
    }

    method StraightenLeft(parent: Node, other: Node, ghost c: Path, ghost t: Tree) returns (ghost c': Path)
      requires Here(c, t) && Short(c, t) && c.GoRight? && c.node == parent
      requires c.left.Branch? && c.left.node == other && !c.left.red
      requires IsRed(c.left.right) && !IsRed(c.left.left)
      modifies this`root, nodes
      ensures Here(c', t) && Short(c', t) && c'.GoRight? && c'.node == parent && c'.up == c.up
      ensures c'.left.Branch? && !c'.left.red && IsRed(c'.left.left)
      ensures InOrder(Plug(c', t)) == InOrder(Plug(c, t))
    {
      NearNephewRight(c, t);
      ghost var s := c.left;
      ghost var cs := GoLeft(parent, c.red, t, c.up);
      ghost var cn := GoRight(s.left, other, false, cs);
      Focus(c, t);
      Focus(cs, s);
      Focus(cn, s.right);
      ghost var n := SetRed(other.right, false, cn, s.right);
      Focus(cn, n);
      ghost var s1 := SetRed(other, true, cs, Up(cn, n));
      ghost var s2 := TurnLeft(other, cs, s1);
      Focus(cs, s2);
      c' := GoRight(s2, parent, c.red, c.up);
      Focus(c', t);
      SameOrder(c.up, Up(c, t), Up(c', t));
    }

    /** One round of the loop. */
    method EraseRound(node: Node?, parent: Node, ghost c: Path, ghost t: Tree)
      returns (done: bool, ghost c': Path, ghost t': Tree)
      requires Here(c, t) && Short(c, t) && Addr(t) == node && !IsRed(t) && Hole(c) == parent
      modifies this`root, nodes
      ensures Here(c', t') && Short(c', t') && InOrder(Plug(c', t')) == InOrder(Plug(c, t))
      ensures if done then c'.Top? else Addr(t') == parent && (IsRed(t') || Depth(c') < Depth(c))
    {
      Focus(c, t);
      LookAt(c.up, Up(c, t));
      if parent.left == node {
        done, c', t' := EraseLeft(node, parent, c, t);
      } else {
        done, c', t' := EraseRight(node, parent, c, t);
      }
    }

    method EraseColor(node0: Node?, parent0: Node?, ghost c0: Path, ghost t0: Tree) returns (ghost t': Tree)
      requires Here(c0, t0) && Short(c0, t0) && Addr(t0) == node0 && Hole(c0) == parent0
      modifies this`root, nodes
      ensures Here(Top, t') && RedBlack(t') && InOrder(t') == InOrder(Plug(c0, t0))
    {
      var node, parent := node0, parent0;
      ghost var c, t := c0, t0;
      RootIsAbove(c, t);
      while (node == null || !node.red) && node != root
        invariant Here(c, t) && Short(c, t) && Addr(t) == node && Hole(c) == parent
        invariant node == root <==> c.Top?
        invariant nodes == old(nodes) && InOrder(Plug(c, t)) == InOrder(Plug(c0, t0))
        decreases if IsRed(t) then 0 else 1 + Depth(c)
      {
        var done;
        done, c, t := EraseRound(node, parent, c, t);
        if done {
          node := root;
          break;
        }
        node := parent;
        parent := node.parent;
        RootIsAbove(c, t);
      }
      t' := SetBlack(node, c, t);
    }

    /** The last line of __rb_erase_color. */
    method SetBlack(node: Node?, ghost c: Path, ghost t: Tree) returns (ghost t': Tree)
      requires Here(c, t) && Short(c, t) && Addr(t) == node && (c.Top? || IsRed(t))
      modifies this`root, nodes
      ensures Here(Top, t') && RedBlack(t') && InOrder(t') == InOrder(Plug(c, t))
    {
      hide At;
      ShortMended(c, t);
      t' := t;
      if node != null {
        t' := SetRed(node, false, c, t);
      }
      MoveToTop(Read(nodes), root, c, t');
      t' := Plug(c, t');
    }

    lemma RootIsAbove(c: Path, t: Tree)
      requires Here(c, t)
      ensures Addr(t) == root <==> c.Top?
    {
      if !c.Top? {
        OuterIsAbove(c, Addr(t));
      }
    }

    // ----- rb_link_node

    method LinkNode(node: Node, parent: Node?, left: bool, ghost c: Path) returns (ghost t: Tree)
      requires Here(c, Leaf) && node !in nodes && parent == Hole(c) && (!c.Top? ==> left == c.GoLeft?)
      modifies this`root, this`nodes, node, nodes
      ensures nodes == old(nodes) + {node} && t == Branch(Leaf, node, true, Leaf) && Here(c, t)
    {
      ghost var m := Read(nodes);
      node.parent, node.red, node.left, node.right := parent, true, null, null;
      if parent == null {
        root := node;
      } else if left {
        parent.left := node;
      } else {
        parent.right := node;
      }
      nodes := nodes + {node};
      t := Branch(Leaf, node, true, Leaf);
      Linked(m, Read(nodes), old(root), c, node);
    }

    /** rb_link_node followed by rb_insert_color. */
    method Attach(node: Node, parent: Node?, left: bool, ghost c: Path)
      requires Valid() && Here(c, Leaf) && Plug(c, Leaf) == tree && node !in nodes
      requires parent == Hole(c) && (!c.Top? ==> left == c.GoLeft?)
      modifies this, node, nodes
      ensures Valid() && nodes == old(nodes) + {node} && Order() == Before(c) + [node] + After(c)
    {
      hide At, Nodes, Above, Fits, PathOk;
      UnplugRedBlack(c, Leaf);
      ghost var t := LinkNode(node, parent, left, c);
      PlugOrder(c, t);
      tree := InsertColor(node, c, t);
    }

    // ----- rb_erase

    /** Makes whatever points at `node` from above point at `other`. */
    method Relink(parent: Node?, node: Node, other: Node?)
      modifies this`root
      modifies (if parent == null then {} else {parent})`left, (if parent == null then {} else {parent})`right
      ensures parent == null ==> root == other
      ensures parent != null ==>
        && root == old(root)
        && parent.left == (if old(parent.left) == node then other else old(parent.left))
        && parent.right == (if old(parent.left) == node then old(parent.right) else other)
    {
      if parent != null {
        if parent.left == node {
          parent.left := other;
        } else {
          parent.right := other;
        }
      } else {
        root := other;
      }
    }

    /** Takes out a node that has no child but `child`. */
    method Bypass(node: Node, child: Node?, parent: Node?)
      requires child != null ==> child != parent
      modifies this`root, (if child == null then {} else {child})`parent
      modifies (if parent == null then {} else {parent})`left, (if parent == null then {} else {parent})`right
      ensures child != null ==> child.parent == parent
      ensures parent == null ==> root == child
      ensures parent != null ==>
        && root == old(root)
        && parent.left == (if old(parent.left) == node then child else old(parent.left))
        && parent.right == (if old(parent.left) == node then old(parent.right) else child)
    {
      if child != null {
        child.parent := parent;
      }
      Relink(parent, node, child);
    }

    method Splice(node: Node, child: Node?, parent: Node?, ghost c: Path, ghost t: Tree, ghost d: Tree)
      requires Here(c, t) && t.Branch? && t.node == node && parent == Hole(c) && child == Addr(d)
      requires (t.left.Leaf? && d == t.right) || (t.right.Leaf? && d == t.left)
      modifies this`root, this`nodes, nodes - {node}
      ensures nodes == old(nodes) - {node} && Here(c, d)
    {
      hide At, Nodes, Above;
      ghost var m := Read(nodes);
      LookAt(c, t);
      LookAround(c, t);
      Bypass(node, child, parent);
      nodes := nodes - {node};
      Spliced(m, Read(nodes), old(root), c, t, d);
    }

    /** `node` gets the parent, colour and left child of `was`, and takes its place below the parent. */
    method Inherit(was: Node, node: Node)
      requires was.left != null && was != node && Apart(was, node, was.left, was.parent)
      modifies this`root, node`left, node`parent, node`red, was.left`parent
      modifies (if was.parent == null then {} else {was.parent})`left
      modifies (if was.parent == null then {} else {was.parent})`right
      ensures was.parent == null ==> root == node
      ensures was.parent != null ==>
        && root == old(root)
        && was.parent.left == (if old(was.parent.left) == was then node else old(was.parent.left))
        && was.parent.right == (if old(was.parent.left) == was then old(was.parent.right) else node)
      ensures node.left == was.left && node.parent == was.parent && node.red == was.red
      ensures was.left.parent == node
    {
      Relink(was.parent, was, node);
      node.parent, node.red := was.parent, was.red;
      node.left := was.left;
      was.left.parent := node;
    }

    /** The right child of `was` has no left child and takes its place. */
    method PromoteSon(was: Node, node: Node, ghost c: Path, ghost t: Tree) returns (ghost t': Tree)
      requires Here(c, t) && t.Branch? && t.node == was && t.left.Branch?
      requires t.right.Branch? && t.right.node == node && t.right.left.Leaf?
      modifies this`root, this`nodes, nodes - {was}
      ensures nodes == old(nodes) - {was}
      ensures t' == Branch(t.left, node, t.red, t.right.right) && Here(c, t')
    {
      ghost var m := Read(nodes);
      t' := Branch(t.left, node, t.red, t.right.right);
      assert IsTree(m, t.left, was) && IsTree(m, t.right, was) && Distinct(t.right);
      Inherit(was, node);
      nodes := nodes - {was};
      ReplacedBySon(m, Read(nodes), old(root), c, t);
    }

    /** `node`, which is outside the tree, takes the place of `was`. */
    method Replace(was: Node, node: Node, ghost c: Path, ghost t: Tree) returns (ghost t': Tree)
      requires Here(c, t) && t.Branch? && t.node == was && t.left.Branch? && t.right.Branch? && node !in nodes
      modifies this`root, this`nodes, nodes - {was}, node
      ensures nodes == old(nodes) - {was} + {node}
      ensures t' == t.(node := node) && Here(c, t')
    {
      ghost var m := Read(nodes);
      t' := t.(node := node);
      hide At, Nodes, Above, Distinct;
      LookAt(c, t);
      LookAround(c, t);
      node.right := was.right;
      was.right.parent := node;
      Inherit(was, node);
      nodes := nodes - {was} + {node};
      Replaced(m, Read(nodes), old(root), c, t, node);
    }

    /** Takes a node without left or without right child out of the tree. */
    method EraseOuter(node: Node, child: Node?, ghost c: Path, ghost t: Tree, ghost d: Tree)
      requires Here(c, t) && Plug(c, t) == tree && RedBlack(tree) && t.Branch? && t.node == node && child == Addr(d)
      requires (t.left.Leaf? && d == t.right) || (t.right.Leaf? && d == t.left)
      modifies this, nodes
      ensures Valid() && nodes == old(nodes) - {node} && Order() == Without(old(Order()), node)
    {
      ErasedOrder(c, t, d);
      TakenOut(c, t, d);
      var parent := node.parent;
      var red := node.red;
      Splice(node, child, parent, c, t, d);
      Settle(red, child, parent, c, d);
    }

    /** The end of rb_erase: a black node is missing above `child`, or nothing is. */
    method Settle(red: bool, child: Node?, parent: Node?, ghost c: Path, ghost d: Tree)
      requires Here(c, d) && child == Addr(d) && parent == Hole(c)
      requires if red then Balanced(d) && NoRedRed(d) && Fits(c, BlackHeight(d)) && PathOk(c) && !IsRed(d)
               else Short(c, d)
      modifies this`root, this`tree, nodes
      ensures Valid() && Order() == InOrder(Plug(c, d))
    {
      hide At;
      if !red {
        tree := EraseColor(child, parent, c, d);
      } else {
        PlugRedBlack(c, d);
        MoveToTop(Read(nodes), root, c, d);
        tree := Plug(c, d);
      }
    }

    /** The leftmost node of the right subtree, with the way to it. */
    method Successor(was: Node, ghost c: Path, ghost t: Tree) returns (node: Node, ghost d: Path, ghost s: Tree)
      requires Here(c, t) && t.Branch? && t.node == was && t.right.Branch?
      ensures Spine(d) && Plug(d, s) == t.right && s.Branch? && s.node == node && s.left.Leaf?
      ensures Here(Append(d, GoRight(t.left, was, t.red, c)), s)
    {
      ghost var b := GoRight(t.left, was, t.red, c);
      Focus(b, t.right);
      LookAt(c, t);
      node, d, s := was.right, Top, t.right;
      while node.left != null
        invariant Spine(d) && Plug(d, s) == t.right && s.Branch? && s.node == node
        invariant Here(Append(d, b), s)
        decreases s
      {
        LookAt(Append(d, b), s);
        node := node.left;
        d, s := GoLeft(s.node, s.red, s.right, d), s.left;
        Focus(Append(d, b), s);
      }
      LookAt(Append(d, b), s);
    }

    /** Takes a node with two children out of the tree. */
    method EraseInner(was: Node, ghost c: Path, ghost t: Tree)
      requires Here(c, t) && Plug(c, t) == tree && RedBlack(tree) && t.Branch? && t.node == was
      requires t.left.Branch? && t.right.Branch?
      modifies this, nodes
      ensures Valid() && nodes == old(nodes) - {was} && Order() == Without(old(Order()), was)
    {
      hide At, Nodes, Above;
      ghost var d, s;
      LookAround(c, t);
      var node;
      node, d, s := Successor(was, c, t);
      ghost var b, b' := GoRight(t.left, was, t.red, c), GoRight(t.left, node, t.red, c);
      ghost var t' := Branch(t.left, node, t.red, Plug(d, s.right));
      SuccessorOk(c, t, d, s);
      SuccessorOrder(c, t, d, s);
      LookAt(Append(d, b), s);
      var child, parent, red := node.right, node.parent, node.red;
      parent := MoveSuccessor(was, node, child, parent, c, t, d, s);
      BackToBend(d, b', s.right);
      Settle(red, child, parent, Append(d, b'), s.right);
    }

    method MoveSuccessor(was: Node, node: Node, child: Node?, parent0: Node?,
                         ghost c: Path, ghost t: Tree, ghost d: Path, ghost s: Tree)
      returns (parent: Node?)
      requires Here(c, t) && t.Branch? && t.node == was && t.left.Branch? && t.right.Branch?
      requires Plug(d, s) == t.right && s.Branch? && s.node == node && s.left.Leaf?
      requires Here(Append(d, GoRight(t.left, was, t.red, c)), s)
      requires child == Addr(s.right) && parent0 == Hole(Append(d, GoRight(t.left, was, t.red, c)))
      modifies this`root, this`nodes, nodes
      ensures nodes == old(nodes) - {was}
      ensures Here(c, Branch(t.left, node, t.red, Plug(d, s.right)))
      ensures parent == Hole(Append(d, GoRight(t.left, node, t.red, c)))
    {
      parent := parent0;
      ghost var b := GoRight(t.left, was, t.red, c);
      if parent == was {
        WasIsBend(Read(nodes), root, d, b, s);
        ghost var t' := PromoteSon(was, node, c, t);
        parent := node;
      } else {
        MoveFar(was, node, child, parent, c, t, d, s);
      }
    }

    lemma BackToBend(d: Path, b: Path, t: Tree)
      requires !b.Top?
      ensures Here(Append(d, b), t) <==> Here(b.up, Up(b, Plug(d, t)))
    {
      MoveAlong(Read(nodes), root, d, b, t);
      Focus(b, Plug(d, t));
    }

    method MoveFar(was: Node, node: Node, child: Node?, parent: Node?,
                   ghost c: Path, ghost t: Tree, ghost d: Path, ghost s: Tree)
      requires Here(c, t) && t.Branch? && t.node == was && t.left.Branch? && !d.Top?
      requires s.Branch? && s.node == node && s.left.Leaf? && child == Addr(s.right)
      requires Here(Append(d, GoRight(t.left, was, t.red, c)), s) && parent == d.node
      modifies this`root, this`nodes, nodes
      ensures nodes == old(nodes) - {was}
      ensures Here(c, Branch(t.left, node, t.red, Plug(d, s.right)))
    {
      hide At;
      ghost var b := GoRight(t.left, was, t.red, c);
      Splice(node, child, parent, Append(d, b), s, s.right);
      BackToBend(d, b, s.right);
      PlugBranch(d, s.right);
      ghost var t' := Replace(was, node, c, Branch(t.left, was, t.red, Plug(d, s.right)));
    }

    /** rb_erase. */
    method Erase(node: Node)
      requires Valid() && node in nodes
      modifies this, nodes
      ensures Valid() && nodes == old(nodes) - {node} && Order() == Without(old(Order()), node)
    {
      ghost var c, t := Locate(Read(nodes), root, Top, tree, node);
      LookAt(c, t);
      if node.left == null {
        EraseOuter(node, node.right, c, t, t.right);
      } else if node.right == null {
        EraseOuter(node, node.left, c, t, t.left);
      } else {
        EraseInner(node, c, t);
      }
    }

    // ----- rb_first, rb_next

    /** The leftmost node of the subtree t. */
    method Leftmost(top: Node, ghost c0: Path, ghost t0: Tree) returns (n: Node)
      requires Here(c0, t0) && t0.Branch? && t0.node == top
      ensures InOrder(t0) != [] && n == InOrder(t0)[0]
    {
      n := top;
      ghost var c, t := c0, t0;
      LookAt(c, t);
      while n.left != null
        invariant Here(c, t) && t.Branch? && t.node == n && InOrder(t) <= InOrder(t0)
        invariant n.left == Addr(t.left)
        decreases t
      {
        n := n.left;
        c, t := GoLeft(t.node, t.red, t.right, c), t.left;
        Focus(c, t);
        LookAt(c, t);
      }
    }

    method First() returns (n: Node?)
      requires Valid()
      ensures n == if Order() == [] then null else Order()[0]
    {
      n := root;
      RootIsTop(tree);
      if n == null {
        return null;
      }
      n := Leftmost(n, Top, tree);
    }

    /** The nearest ancestor that has the node on its left. */
    method FirstAfter(node0: Node, ghost c0: Path, ghost t0: Tree) returns (parent: Node?)
      requires Here(c0, t0) && t0.Branch? && t0.node == node0
      ensures parent == if After(c0) == [] then null else After(c0)[0]
    {
      var node := node0;
      ghost var c, t := c0, t0;
      LookAt(c, t);
      parent := node.parent;
      while parent != null && node == parent.right
        invariant Here(c, t) && t.Branch? && t.node == node && parent == node.parent == Hole(c)
        invariant !c.Top? ==> (c.GoRight? <==> c.node.right == t.node)
        invariant After(c) == After(c0)
        decreases c
      {
        Focus(c, t);
        c, t := c.up, Up(c, t);
        node := parent;
        LookAt(c, t);
        parent := node.parent;
      }
    }

    /** The neighbour of a node in the order; none for a node that RB_CLEAR_NODE has marked. */
    method Next(node: Node, ghost i: nat) returns (n: Node?)
      requires Valid()
      requires if node in nodes then i < |Order()| && Order()[i] == node else node.parent == node
      ensures n == if node in nodes && i + 1 < |Order()| then Order()[i + 1] else null
    {
      ghost var c, t;
      if node in nodes {
        c, t := Locate(Read(nodes), root, Top, tree, node);
        LookAt(c, t);
        LookAround(c, t);
        IndexAt(c, t, i);
        assert |InOrder(t.right) + After(c)| > 0 ==>
          Order()[i + 1..][0] == Order()[i + 1] == (InOrder(t.right) + After(c))[0];
      }
      if node.parent == node {
        return null;
      }
      if node.right != null {
        ghost var d := GoRight(t.left, t.node, t.red, c);
        Focus(d, t.right);
        n := Leftmost(node.right, d, t.right);
        return;
      }
      n := FirstAfter(node, c, t);
    }

    lemma NoNodeTwice()
      requires Valid()
      ensures NoTwice(Order())
    {
      OrderNoTwice(tree);
    }

    /** The loop `for (node = rb_first(..); node; node = rb_next(node))`. */
    method Walk() returns (visited: seq<Node>)
      requires Valid()
      ensures visited == Order()
    {
      visited := [];
      var node := First();
      while node != null
        invariant visited <= Order()
        invariant node == if |visited| < |Order()| then Order()[|visited|] else null
        decreases |Order()| - |visited|
      {
        visited := visited + [node];
        OrderHas(tree, node);
        node := Next(node, |visited| - 1);
      }
    }
  }
}
