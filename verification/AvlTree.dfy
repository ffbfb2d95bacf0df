/** Balance and search order of the trees of avltree.c. */
module AvlBalance {
  import opened AvlZipper

  function Max(a: int, b: int): int { if a > b then a else b }

  ghost function Depth(t: Tree): nat {
    if t.Leaf? then 0 else 1 + Max(Depth(t.left), Depth(t.right))
  }

  /** Stored heights are exact and the two sides of every node differ by at most one level. */
  ghost predicate Avl(t: Tree) {
    t.Branch? ==>
      && Avl(t.left) && Avl(t.right) && t.height == Depth(t)
      && -1 <= Depth(t.left) - Depth(t.right) <= 1
  }

  /** The same of a path whose hole takes a tree of depth d. */
  ghost predicate AvlPath(c: Path, d: nat) {
    !c.Top? ==>
      && Avl(Sibling(c)) && -1 <= Depth(Sibling(c)) - d <= 1
      && c.height == 1 + Max(Depth(Sibling(c)), d) && AvlPath(c.up, c.height)
  }

  lemma {:induction false} AvlSplits(c: Path, t: Tree)
    ensures Avl(Plug(c, t)) <==> Avl(t) && AvlPath(c, Depth(t))
    decreases c
  {
    if !c.Top? {
      AvlSplits(c.up, Up(c, t));
    }
  }

  // ----- what the code computes

  ghost function Stored(t: Tree): int { if t.Leaf? then 0 else t.height }

  ghost function Adjusted(t: Tree): Tree
    requires t.Branch?
  {
    t.(height := 1 + Max(Stored(t.left), Stored(t.right)))
  }

  ghost function TurnedLeft(t: Tree): (r: Tree)
    requires t.Branch? && t.right.Branch?
    ensures r.Branch?
  {
    var r := RotL(t);
    Adjusted(r.(left := Adjusted(r.left)))
  }

  ghost function TurnedRight(t: Tree): (r: Tree)
    requires t.Branch? && t.left.Branch?
    ensures r.Branch?
  {
    var r := RotR(t);
    Adjusted(r.(right := Adjusted(r.right)))
  }

  /** balance follows only links that are there. */
  ghost predicate CanBalance(t: Tree) {
    && t.Branch?
    && (Stored(t.left) - Stored(t.right) > 1 ==>
          t.left.Branch? && (Stored(t.left.left) > Stored(t.left.right) || t.left.right.Branch?))
    && (Stored(t.right) - Stored(t.left) > 1 ==>
          t.right.Branch? && (Stored(t.right.right) > Stored(t.right.left) || t.right.left.Branch?))
  }

  ghost function Balanced(t: Tree): (r: Tree)
    requires CanBalance(t)
    ensures r.Branch?
  {
    if Stored(t.left) - Stored(t.right) > 1 then
      if Stored(t.left.left) > Stored(t.left.right) then TurnedRight(t)
      else TurnedRight(t.(left := TurnedLeft(t.left)))
    else if Stored(t.right) - Stored(t.left) > 1 then
      if Stored(t.right.right) > Stored(t.right.left) then TurnedLeft(t)
      else TurnedLeft(t.(right := TurnedRight(t.right)))
    else t
  }

  // ----- one level of the way up

  /** A subtree that replaces one of depth d: as deep, or one level deeper and then not evenly balanced. */
  ghost predicate Grown(t: Tree, d: nat) {
    && Avl(t) && t.Branch?
    && (Depth(t) == d || (Depth(t) == d + 1 && (d == 0 || Depth(t.left) != Depth(t.right))))
  }

  lemma StoredDepth(t: Tree)
    requires Avl(t)
    ensures Stored(t) == Depth(t)
    ensures t.Branch? ==> Stored(t.left) == Depth(t.left) && Stored(t.right) == Depth(t.right)
  {
  }

  lemma Even(l: Tree, node: Node, val: int, height: int, r: Tree)
    requires Avl(l) && Avl(r) && -1 <= Depth(l) - Depth(r) <= 1
    ensures
      var t := Adjusted(Branch(l, node, val, height, r));
      Avl(t) && Depth(t) == 1 + Max(Depth(l), Depth(r))
  {
  }

  lemma TurnRightEvens(t: Tree)
    requires t.Branch? && Avl(t.left) && Avl(t.right) && t.left.Branch?
    requires Depth(t.left.left) == Depth(t.left.right) + 1 == Depth(t.right) + 1
    ensures Avl(TurnedRight(t)) && Depth(TurnedRight(t)) == Depth(t.left)
  {
    var y := t.left;
    Even(y.right, t.node, t.val, t.height, t.right);
    Even(y.left, y.node, y.val, y.height, Adjusted(RotR(t).right));
  }

  lemma TurnTwiceRightEvens(t: Tree)
    requires t.Branch? && Avl(t.left) && Avl(t.right) && t.left.Branch? && t.left.right.Branch?
    requires Depth(t.left.right) == Depth(t.left.left) + 1 == Depth(t.right) + 1
    ensures
      var r := TurnedRight(t.(left := TurnedLeft(t.left)));
      Avl(r) && Depth(r) == Depth(t.left)
  {
    var y := t.left;
    var z := y.right;
    Even(y.left, y.node, y.val, y.height, z.left);
    Even(z.right, t.node, t.val, t.height, t.right);
    Even(Adjusted(Branch(y.left, y.node, y.val, y.height, z.left)), z.node, z.val, TurnedLeft(y).height,
      Adjusted(Branch(z.right, t.node, t.val, t.height, t.right)));
  }

  lemma TurnLeftEvens(t: Tree)
    requires t.Branch? && Avl(t.left) && Avl(t.right) && t.right.Branch?
    requires Depth(t.right.right) == Depth(t.right.left) + 1 == Depth(t.left) + 1
    ensures Avl(TurnedLeft(t)) && Depth(TurnedLeft(t)) == Depth(t.right)
  {
    var y := t.right;
    Even(t.left, t.node, t.val, t.height, y.left);
    Even(Adjusted(RotL(t).left), y.node, y.val, y.height, y.right);
  }

  lemma TurnTwiceLeftEvens(t: Tree)
    requires t.Branch? && Avl(t.left) && Avl(t.right) && t.right.Branch? && t.right.left.Branch?
    requires Depth(t.right.left) == Depth(t.right.right) + 1 == Depth(t.left) + 1
    ensures
      var r := TurnedLeft(t.(right := TurnedRight(t.right)));
      Avl(r) && Depth(r) == Depth(t.right)
  {
    var y := t.right;
    var z := y.left;
    Even(z.right, y.node, y.val, y.height, y.right);
    Even(t.left, t.node, t.val, t.height, z.left);
    Even(Adjusted(Branch(t.left, t.node, t.val, t.height, z.left)), z.node, z.val, TurnedRight(y).height,
      Adjusted(Branch(z.right, y.node, y.val, y.height, y.right)));
  }

  lemma LeftGrew(c: Path, t: Tree, d: nat)
    requires c.GoLeft? && AvlPath(c, d) && Grown(t, d)
    ensures
      var u := Adjusted(Up(c, t));
      CanBalance(u) && Grown(Balanced(u), c.height)
  {
    hide RotL, RotR, TurnedLeft, TurnedRight;
    var u := Adjusted(Up(c, t));
    StoredDepth(t);
    StoredDepth(Sibling(c));
    if Depth(t) <= Depth(c.right) + 1 {
      Even(t, c.node, c.val, c.height, c.right);
    } else if Depth(t.left) > Depth(t.right) {
      TurnRightEvens(u);
    } else {
      TurnTwiceRightEvens(u);
    }
  }

  lemma RightGrew(c: Path, t: Tree, d: nat)
    requires c.GoRight? && AvlPath(c, d) && Grown(t, d)
    ensures
      var u := Adjusted(Up(c, t));
      CanBalance(u) && Grown(Balanced(u), c.height)
  {
    hide RotL, RotR, TurnedLeft, TurnedRight;
    var u := Adjusted(Up(c, t));
    StoredDepth(t);
    StoredDepth(Sibling(c));
    if Depth(t) <= Depth(c.left) + 1 {
      Even(c.left, c.node, c.val, c.height, t);
    } else if Depth(t.right) > Depth(t.left) {
      TurnLeftEvens(u);
    } else {
      TurnTwiceLeftEvens(u);
    }
  }

  /** Adjusting and balancing the parent of a grown subtree leaves a grown subtree. */
  lemma GrowsUp(c: Path, t: Tree, d: nat)
    requires !c.Top? && AvlPath(c, d) && Grown(t, d)
    ensures
      var u := Adjusted(Up(c, t));
      CanBalance(u) && Grown(Balanced(u), c.height)
  {
    if c.GoLeft? {
      LeftGrew(c, t, d);
    } else {
      RightGrew(c, t, d);
    }
  }

  /** Nothing changes above a subtree that is as deep as before. */
  lemma StaysSame(c: Path, t: Tree)
    requires !c.Top? && Avl(Up(c, t))
    ensures
      var u := Adjusted(Up(c, t));
      CanBalance(u) && Balanced(u) == Up(c, t)
  {
  }

  // ----- search order

  ghost function InOrder(t: Tree): seq<int> {
    if t.Leaf? then [] else InOrder(t.left) + [t.val] + InOrder(t.right)
  }

  ghost function Before(c: Path): seq<int> {
    if c.Top? then [] else if c.GoLeft? then Before(c.up) else Before(c.up) + InOrder(c.left) + [c.val]
  }

  ghost function After(c: Path): seq<int> {
    if c.Top? then [] else if c.GoLeft? then [c.val] + InOrder(c.right) + After(c.up) else After(c.up)
  }

  ghost predicate Sorted(s: seq<int>) { forall i, j :: 0 <= i < j < |s| ==> s[i] < s[j] }

  ghost predicate AllBelow(s: seq<int>, v: int) { forall i :: 0 <= i < |s| ==> s[i] < v }

  ghost predicate AllAbove(s: seq<int>, v: int) { forall i :: 0 <= i < |s| ==> s[i] > v }

  /** The keys on the left of the hole are below v, those on its right above. */
  ghost predicate Separates(c: Path, v: int) { AllBelow(Before(c), v) && AllAbove(After(c), v) }

  lemma {:induction false} PlugOrder(c: Path, t: Tree)
    ensures InOrder(Plug(c, t)) == Before(c) + InOrder(t) + After(c)
    decreases c
  {
    if !c.Top? {
      PlugOrder(c.up, Up(c, t));
      if c.GoLeft? {
        Assoc(Before(c.up), InOrder(t), [c.val] + InOrder(c.right), After(c.up));
      } else {
        Assoc(Before(c.up), InOrder(c.left) + [c.val], InOrder(t), After(c.up));
      }
    }
  }

  lemma Assoc(a: seq<int>, b: seq<int>, c: seq<int>, d: seq<int>)
    ensures a + (b + c) + d == a + b + (c + d) == a + b + c + d
  {
  }

  lemma TurnOrder(t: Tree)
    ensures t.Branch? && t.right.Branch? ==> InOrder(TurnedLeft(t)) == InOrder(t)
    ensures t.Branch? && t.left.Branch? ==> InOrder(TurnedRight(t)) == InOrder(t)
  {
    if t.Branch? {
      if t.right.Branch? {
        Shift(InOrder(t.left), t.val, InOrder(t.right.left), t.right.val, InOrder(t.right.right));
      }
      if t.left.Branch? {
        Shift(InOrder(t.left.left), t.left.val, InOrder(t.left.right), t.val, InOrder(t.right));
      }
    }
  }

  lemma Shift(a: seq<int>, x: int, b: seq<int>, y: int, c: seq<int>)
    ensures a + [x] + (b + [y] + c) == a + [x] + b + [y] + c
  {
  }

  lemma BalancedOrder(t: Tree)
    requires CanBalance(t)
    ensures InOrder(Balanced(t)) == InOrder(t)
  {
    hide TurnedLeft, TurnedRight;
    TurnOrder(t);
    TurnOrder(t.left);
    TurnOrder(t.right);
    if t.left.Branch? && t.left.right.Branch? {
      TurnOrder(t.(left := TurnedLeft(t.left)));
    }
    if t.right.Branch? && t.right.left.Branch? {
      TurnOrder(t.(right := TurnedRight(t.right)));
    }
  }
}

/** The operations of avltree.c on linked nodes. */
module AvlTree {
  import opened AvlZipper
  import opened AvlBalance

  /** The nodes are laid out as the tree `Plug(c, t)`. */
  ghost predicate Here(nodes: set<Node>, c: Path, t: Tree)
    reads nodes
  {
    At(Read(nodes), c, t) && nodes == Nodes(t) + Above(c)
  }

  lemma Focus(nodes: set<Node>, c: Path, t: Tree)
    requires !c.Top?
    ensures Here(nodes, c, t) <==> Here(nodes, c.up, Up(c, t))
  {
    MoveUp(Read(nodes), c, t);
  }

  function Height(n: Node?): int
    reads n
  {
    if n == null then 0 else n.height
  }

  /** What the fields around a node say. */
  lemma LookAt(nodes: set<Node>, c: Path, t: Tree)
    requires Here(nodes, c, t) && t.Branch?
    ensures t.node in nodes && t.node.val == t.val && t.node.parent == Hole(c)
    ensures t.node.left == Addr(t.left) && t.node.right == Addr(t.right)
    ensures t.left.Branch? ==> t.left.node in nodes
    ensures t.right.Branch? ==> t.right.node in nodes
    ensures !c.Top? ==> c.node in nodes
    ensures Height(t.node.left) == Stored(t.left) && Height(t.node.right) == Stored(t.right)
  {
    assert IsTree(Read(nodes), t.left, t.node) && IsTree(Read(nodes), t.right, t.node);
  }

  /** find. */
  function Find(root: Node?, val: int, ghost nodes: set<Node>, ghost c: Path, ghost t: Tree): (r: Node?)
    requires Here(nodes, c, t) && Sorted(InOrder(t)) && root == Addr(t)
    reads nodes
    ensures r != null <==> val in InOrder(t)
    ensures r != null ==> r in Nodes(t) && r.val == val
    decreases t
  {
    if root == null then null
    else
      LookAt(nodes, c, t);
      var dl, dr := GoLeft(t.node, t.val, t.height, t.right, c), GoRight(t.left, t.node, t.val, t.height, c);
      Focus(nodes, dl, t.left);
      Focus(nodes, dr, t.right);
      SidesSorted(InOrder(t.left), t.val, InOrder(t.right), val);
      if val < root.val then Find(root.left, val, nodes, dl, t.left)
      else if val > root.val then Find(root.right, val, nodes, dr, t.right)
      else root
  }

  /** A sorted sequence around one of its elements. */
  lemma SortedAround(a: seq<int>, x: int, b: seq<int>)
    ensures Sorted(a + [x] + b) <==> Sorted(a) && Sorted(b) && AllBelow(a, x) && AllAbove(b, x)
  {
    var s := a + [x] + b;
    assert s[|a|] == x;
    assert forall i :: 0 <= i < |a| ==> a[i] == s[i];
    assert forall i :: 0 <= i < |b| ==> b[i] == s[|a| + 1 + i];
  }

  lemma SidesSorted(a: seq<int>, x: int, b: seq<int>, v: int)
    requires Sorted(a + [x] + b)
    ensures Sorted(a) && Sorted(b)
    ensures v < x ==> (v in a + [x] + b <==> v in a)
    ensures v > x ==> (v in a + [x] + b <==> v in b)
    ensures v == x ==> v in a + [x] + b
  {
    SortedAround(a, x, b);
  }

  /** adjust_height. */
  method AdjustHeight(root: Node, ghost nodes: set<Node>, ghost c: Path, ghost t: Tree)
    requires Here(nodes, c, t) && t.Branch? && t.node == root
    modifies root`height
    ensures Here(nodes, c, Adjusted(t))
  {
    LookAt(nodes, c, t);
    ghost var m := Read(nodes);
    root.height := 1 + Max(Height(root.left), Height(root.right));
    Restamped(m, Read(nodes), c, t, 1 + Max(Stored(t.left), Stored(t.right)));
  }

  // ----- rotations

  /** The links of rotate_right. */
  method LinkRight(root: Node) returns (newRoot: Node)
    requires root.left != null && Apart(root, root.left, root.left.right, root.parent)
    modifies root`left, root`parent, root.left`right, root.left`parent
    modifies (if root.left.right == null then {} else {root.left.right})`parent
    modifies (if root.parent == null then {} else {root.parent})`left
    modifies (if root.parent == null then {} else {root.parent})`right
    ensures newRoot == old(root.left)
    ensures root.left == old(root.left.right) && root.parent == newRoot
    ensures newRoot.right == root && newRoot.parent == old(root.parent)
    ensures old(root.left.right) != null ==> old(root.left.right).parent == root
    ensures old(root.parent) != null ==>
      && old(root.parent).left == (if old(root.parent.left) == root then newRoot else old(root.parent.left))
      && old(root.parent).right == (if old(root.parent.left) == root then old(root.parent.right) else newRoot)
  {
    newRoot := root.left;
    if root.parent != null {
      if root.parent.left == root {
        root.parent.left := newRoot;
      } else {
        root.parent.right := newRoot;
      }
    }
    newRoot.parent := root.parent;
    root.parent := newRoot;
    root.left := newRoot.right;
    if root.left != null {
      root.left.parent := root;
    }
    newRoot.right := root;
  }

  /** The links of rotate_left. */
  method LinkLeft(root: Node) returns (newRoot: Node)
    requires root.right != null && Apart(root, root.right, root.right.left, root.parent)
    modifies root`right, root`parent, root.right`left, root.right`parent
    modifies (if root.right.left == null then {} else {root.right.left})`parent
    modifies (if root.parent == null then {} else {root.parent})`left
    modifies (if root.parent == null then {} else {root.parent})`right
    ensures newRoot == old(root.right)
    ensures root.right == old(root.right.left) && root.parent == newRoot
    ensures newRoot.left == root && newRoot.parent == old(root.parent)
    ensures old(root.right.left) != null ==> old(root.right.left).parent == root
    ensures old(root.parent) != null ==>
      && old(root.parent).right == (if old(root.parent.right) == root then newRoot else old(root.parent.right))
      && old(root.parent).left == (if old(root.parent.right) == root then old(root.parent.left) else newRoot)
  {
    newRoot := root.right;
    if root.parent != null {
      if root.parent.right == root {
        root.parent.right := newRoot;
      } else {
        root.parent.left := newRoot;
      }
    }
    newRoot.parent := root.parent;
    root.parent := newRoot;
    root.right := newRoot.left;
    if root.right != null {
      root.right.parent := root;
    }
    newRoot.left := root;
  }

  /** rotate_right. */
  method RotateRight(root: Node, ghost nodes: set<Node>, ghost c: Path, ghost t: Tree) returns (newRoot: Node)
    requires Here(nodes, c, t) && t.Branch? && t.node == root && t.left.Branch?
    modifies nodes
    ensures Here(nodes, c, TurnedRight(t)) && newRoot == TurnedRight(t).node
  {
    newRoot := SwingRight(root, nodes, c, t);
    ghost var r := RotR(t);
    ghost var d := GoRight(r.left, r.node, r.val, r.height, c);
    Focus(nodes, d, r.right);
    AdjustHeight(root, nodes, d, r.right);
    Focus(nodes, d, Adjusted(r.right));
    AdjustHeight(newRoot, nodes, c, r.(right := Adjusted(r.right)));
  }

  method SwingRight(root: Node, ghost nodes: set<Node>, ghost c: Path, ghost t: Tree) returns (newRoot: Node)
    requires Here(nodes, c, t) && t.Branch? && t.node == root && t.left.Branch?
    modifies nodes
    ensures Here(nodes, c, RotR(t)) && newRoot == t.left.node
  {
    AroundRight(Read(nodes), c, t);
    ghost var m := Read(nodes);
    newRoot := LinkRight(root);
    RotatedRight(m, Read(nodes), c, t);
  }

  /** rotate_left. */
  method RotateLeft(root: Node, ghost nodes: set<Node>, ghost c: Path, ghost t: Tree) returns (newRoot: Node)
    requires Here(nodes, c, t) && t.Branch? && t.node == root && t.right.Branch?
    modifies nodes
    ensures Here(nodes, c, TurnedLeft(t)) && newRoot == TurnedLeft(t).node
  {
    newRoot := SwingLeft(root, nodes, c, t);
    ghost var r := RotL(t);
    ghost var d := GoLeft(r.node, r.val, r.height, r.right, c);
    Focus(nodes, d, r.left);
    AdjustHeight(root, nodes, d, r.left);
    Focus(nodes, d, Adjusted(r.left));
    AdjustHeight(newRoot, nodes, c, r.(left := Adjusted(r.left)));
  }

  method SwingLeft(root: Node, ghost nodes: set<Node>, ghost c: Path, ghost t: Tree) returns (newRoot: Node)
    requires Here(nodes, c, t) && t.Branch? && t.node == root && t.right.Branch?
    modifies nodes
    ensures Here(nodes, c, RotL(t)) && newRoot == t.right.node
  {
    AroundLeft(Read(nodes), c, t);
    ghost var m := Read(nodes);
    newRoot := LinkLeft(root);
    RotatedLeft(m, Read(nodes), c, t);
  }

  /** balance. */
  method Balance(root: Node, ghost nodes: set<Node>, ghost c: Path, ghost t: Tree) returns (r: Node)
    requires Here(nodes, c, t) && CanBalance(t) && t.node == root
    modifies nodes
    ensures Here(nodes, c, Balanced(t)) && r == Balanced(t).node
  {
    hide TurnedLeft, TurnedRight, RotL, RotR, Here;
    LookAt(nodes, c, t);
    ghost var dl, dr := GoLeft(root, t.val, t.height, t.right, c), GoRight(t.left, root, t.val, t.height, c);
    Focus(nodes, dl, t.left);
    Focus(nodes, dr, t.right);
    r := root;
    if Height(root.left) - Height(root.right) > 1 {
      LookAt(nodes, dl, t.left);
      if Height(root.left.left) > Height(root.left.right) {
        r := RotateRight(root, nodes, c, t);
      } else {
        var _ := RotateLeft(root.left, nodes, dl, t.left);
        Focus(nodes, dl, TurnedLeft(t.left));
        r := RotateRight(root, nodes, c, t.(left := TurnedLeft(t.left)));
      }
    } else if Height(root.right) - Height(root.left) > 1 {
      LookAt(nodes, dr, t.right);
      if Height(root.right.right) > Height(root.right.left) {
        r := RotateLeft(root, nodes, c, t);
      } else {
        var _ := RotateRight(root.right, nodes, dr, t.right);
        Focus(nodes, dr, TurnedRight(t.right));
        r := RotateLeft(root, nodes, c, t.(right := TurnedRight(t.right)));
      }
    }
  }

  // ----- insert

  /** The search keeps the keys apart on its way down. */
  lemma GoesOn(c: Path, t: Tree, v: int)
    requires t.Branch? && Sorted(InOrder(Plug(c, t))) && Separates(c, v)
    ensures v < t.val ==> Separates(GoLeft(t.node, t.val, t.height, t.right, c), v)
    ensures v > t.val ==> Separates(GoRight(t.left, t.node, t.val, t.height, c), v)
  {
    PlugOrder(c, t);
    Around(Before(c), InOrder(t.left), t.val, InOrder(t.right), After(c), v);
  }

  lemma Around(b: seq<int>, l: seq<int>, x: int, r: seq<int>, a: seq<int>, v: int)
    requires Sorted(b + (l + [x] + r) + a) && AllBelow(b, v) && AllAbove(a, v)
    ensures v < x ==> AllAbove([x] + r + a, v)
    ensures v > x ==> AllBelow(b + l + [x], v)
  {
    hide Sorted, AllBelow, AllAbove;
    Regroup(b, l, x, r, a);
    SortedAround(b + l, x, r + a);
    if v < x {
      AboveAround(r, a, x, v);
    }
    if v > x {
      BelowAround(b, l, x, v);
    }
  }

  lemma Regroup(b: seq<int>, l: seq<int>, x: int, r: seq<int>, a: seq<int>)
    ensures b + (l + [x] + r) + a == (b + l) + [x] + (r + a)
  {
  }

  lemma AboveAround(r: seq<int>, a: seq<int>, x: int, v: int)
    requires AllAbove(r + a, x) && v < x
    ensures AllAbove([x] + r + a, v)
  {
    assert forall i :: 0 < i <= |r + a| ==> ([x] + r + a)[i] == (r + a)[i - 1];
  }

  lemma BelowAround(b: seq<int>, l: seq<int>, x: int, v: int)
    requires AllBelow(b + l, x) && v > x
    ensures AllBelow(b + l + [x], v)
  {
    assert forall i :: 0 <= i < |b + l| ==> (b + l + [x])[i] == (b + l)[i];
  }

  /** The first loop of insert: it stops at the node of val, found in the tree t0 or new under its parent. */
  method Descend(root: Node, val: int, ghost nodes: set<Node>, ghost t0: Tree)
    returns (current: Node, ghost nodes': set<Node>, ghost c: Path, ghost t: Tree)
    requires Here(nodes, Top, t0) && Sorted(InOrder(t0)) && t0.Branch? && t0.node == root
    modifies nodes
    ensures Here(nodes', c, t) && t.Branch? && t.node == current && t.val == val && Separates(c, val)
    ensures c.Top? <==> t0.val == val
    ensures current in nodes ==> nodes' == nodes && Plug(c, t) == t0
    ensures current !in nodes ==>
      fresh(current) && nodes' == nodes + {current} && t == Branch(Leaf, current, val, 1, Leaf) && Plug(c, Leaf) == t0
  {
    hide Sorted, Separates, Here;
    current, nodes', c, t := root, nodes, Top, t0;
    LookAt(nodes, c, t);
    NothingAround(val);
    while current.val != val
      invariant nodes' == nodes && Here(nodes, c, t) && Plug(c, t) == t0 && t.Branch? && t.node == current
      invariant Separates(c, val) && (c.Top? ==> t == t0) && (!c.Top? ==> t0.val != val)
      invariant current in nodes && current.val == t.val
      decreases t
    {
      LookAt(nodes, c, t);
      GoesOn(c, t, val);
      if val < current.val {
        c, t := GoLeft(t.node, t.val, t.height, t.right, c), t.left;
        Focus(nodes, c, t);
        if current.left != null {
          current := current.left;
          LookAt(nodes, c, t);
        } else {
          current, nodes', t := MakeLeft(current, val, nodes, c);
          return;
        }
      } else {
        c, t := GoRight(t.left, t.node, t.val, t.height, c), t.right;
        Focus(nodes, c, t);
        if current.right != null {
          current := current.right;
          LookAt(nodes, c, t);
        } else {
          current, nodes', t := MakeRight(current, val, nodes, c);
          return;
        }
      }
    }
  }

  lemma NothingAround(v: int)
    ensures Separates(Top, v)
  {
  }

  method MakeLeft(current: Node, val: int, ghost nodes: set<Node>, ghost c: Path)
    returns (n: Node, ghost nodes': set<Node>, ghost t: Tree)
    requires Here(nodes, c, Leaf) && c.GoLeft? && c.node == current
    modifies current`left
    ensures n !in nodes && fresh(n) && nodes' == nodes + {n} && t == Branch(Leaf, n, val, 1, Leaf) && Here(nodes', c, t)
  {
    ghost var m := Read(nodes);
    n := new Node(val, current);
    current.left := n;
    nodes', t := nodes + {n}, Branch(Leaf, n, val, 1, Leaf);
    Linked(m, Read(nodes'), c, n, val);
  }

  method MakeRight(current: Node, val: int, ghost nodes: set<Node>, ghost c: Path)
    returns (n: Node, ghost nodes': set<Node>, ghost t: Tree)
    requires Here(nodes, c, Leaf) && c.GoRight? && c.node == current
    modifies current`right
    ensures n !in nodes && fresh(n) && nodes' == nodes + {n} && t == Branch(Leaf, n, val, 1, Leaf) && Here(nodes', c, t)
  {
    ghost var m := Read(nodes);
    n := new Node(val, current);
    current.right := n;
    nodes', t := nodes + {n}, Branch(Leaf, n, val, 1, Leaf);
    Linked(m, Read(nodes'), c, n, val);
  }

  /** The second loop of insert, from a subtree that has grown in place of one of depth d. */
  method Climb(start: Node, ghost nodes: set<Node>, ghost c0: Path, ghost t0: Tree, ghost d0: nat)
    returns (current: Node, ghost t: Tree)
    requires Here(nodes, c0, t0) && !c0.Top? && t0.Branch? && t0.node == start
    requires Grown(t0, d0) && AvlPath(c0, d0)
    modifies nodes
    ensures Here(nodes, Top, t) && t.Branch? && current == t.node && Avl(t)
    ensures InOrder(t) == Before(c0) + InOrder(t0) + After(c0)
    ensures Depth(t0) == d0 ==> t == Plug(c0, t0)
  {
    hide Here, AvlPath, InOrder, CanBalance, Adjusted, Balanced;
    current, t := start, t0;
    ghost var c, d := c0, d0;
    while true
      invariant Here(nodes, c, t) && !c.Top? && t.Branch? && t.node == current
      invariant Grown(t, d) && AvlPath(c, d)
      invariant InOrder(Plug(c, t)) == InOrder(Plug(c0, t0))
      invariant Depth(t0) == d0 ==> Depth(t) == d && Plug(c, t) == Plug(c0, t0)
      decreases c
    {
      ClimbStep(c, t, d);
      ghost var d': nat := c.height;
      current, t := ClimbRound(current, nodes, c, t);
      c, d := c.up, d';
      LookAt(nodes, c, t);
      if current.parent == null {
        break;
      }
    }
    PlugOrder(c0, t0);
  }

  ghost function Raised(c: Path, t: Tree): Tree
    requires !c.Top? && CanBalance(Adjusted(Up(c, t)))
  {
    Balanced(Adjusted(Up(c, t)))
  }

  lemma ClimbStep(c: Path, t: Tree, d: nat)
    requires !c.Top? && Grown(t, d) && AvlPath(c, d)
    ensures c.height >= 1
    ensures CanBalance(Adjusted(Up(c, t))) && Grown(Raised(c, t), c.height) && AvlPath(c.up, c.height)
    ensures InOrder(Plug(c.up, Raised(c, t))) == InOrder(Plug(c, t))
    ensures Depth(t) == d ==> Raised(c, t) == Up(c, t) && Depth(Up(c, t)) == c.height
  {
    GrowsUp(c, t, d);
    BalancedOrder(Adjusted(Up(c, t)));
    PlugOrder(c.up, Raised(c, t));
    PlugOrder(c.up, Up(c, t));
    if Depth(t) == d {
      assert Avl(Up(c, t));
      StaysSame(c, t);
    }
  }

  /** The body of that loop. */
  method ClimbRound(start: Node, ghost nodes: set<Node>, ghost c: Path, ghost t: Tree)
    returns (current: Node, ghost t': Tree)
    requires Here(nodes, c, t) && !c.Top? && t.Branch? && t.node == start && CanBalance(Adjusted(Up(c, t)))
    modifies nodes
    ensures Here(nodes, c.up, t') && t' == Raised(c, t) && current == t'.node
  {
    LookAt(nodes, c, t);
    Focus(nodes, c, t);
    current := start.parent;
    AdjustHeight(current, nodes, c.up, Up(c, t));
    current := Balance(current, nodes, c.up, Adjusted(Up(c, t)));
    t' := Raised(c, t);
  }

  /** insert. For the value of the root, the way up starts above the root, where there is no node; ok says that this
      does not happen. */
  method Insert(root: Node, val: int, ghost nodes: set<Node>, ghost t0: Tree)
    returns (ok: bool, r: Node, ghost nodes': set<Node>, ghost t: Tree)
    requires Here(nodes, Top, t0) && t0.Branch? && t0.node == root
    requires Avl(t0) && Sorted(InOrder(t0))
    modifies nodes
    ensures ok <==> t0.val != val
    ensures Here(nodes', Top, t) && t.Branch? && r == t.node
    ensures Avl(t) && Sorted(InOrder(t))
    ensures forall k :: k in InOrder(t) <==> k in InOrder(t0) || k == val
    ensures val in InOrder(t0) ==> t == t0 && nodes' == nodes
    ensures val !in InOrder(t0) ==> exists n :: nodes' == nodes + {n} && n !in nodes && fresh(n)
  {
    hide Here, Sorted;
    ghost var c, s;
    var current;
    current, nodes', c, s := Descend(root, val, nodes, t0);
    LookAt(nodes', c, s);
    if current.parent == null {
      RootHolds(s, val);
      return false, current, nodes', s;
    }
    ok := true;
    ghost var found := current in nodes;
    ghost var d := if found then Depth(s) else 0;
    Landed(c, s, t0, val, d, found);
    r, t := Climb(current, nodes', c, s, d);
  }

  lemma RootHolds(t: Tree, val: int)
    requires t.Branch? && t.val == val
    ensures val in InOrder(t)
  {
    assert InOrder(t)[|InOrder(t.left)|] == val;
  }

  /** Where the search ends, the rest of the tree is fit for a subtree grown there, and the keys are those wanted. */
  lemma Landed(c: Path, s: Tree, t0: Tree, val: int, d: nat, found: bool)
    requires Avl(t0) && Sorted(InOrder(t0)) && Separates(c, val) && s.Branch? && s.val == val
    requires found ==> Plug(c, s) == t0 && d == Depth(s)
    requires !found ==> Plug(c, Leaf) == t0 && d == 0 && s == Branch(Leaf, s.node, val, 1, Leaf)
    ensures Grown(s, d) && AvlPath(c, d)
    ensures found <==> val in InOrder(t0)
    ensures IsWith(Before(c) + InOrder(s) + After(c), InOrder(t0), val)
  {
    hide Sorted, AllBelow, AllAbove, IsWith, Before, After;
    if found {
      AvlSplits(c, s);
      PlugOrder(c, s);
      Already(InOrder(s.left), val, InOrder(s.right), Before(c), After(c));
    } else {
      AvlSplits(c, Leaf);
      PlugOrder(c, Leaf);
      assert Before(c) + [] == Before(c);
      Between(Before(c), val, After(c));
      assert InOrder(s) == [val];
    }
  }

  /** The sorted keys s, with v among them. */
  ghost predicate IsWith(s': seq<int>, s: seq<int>, v: int) {
    Sorted(s') && forall k :: k in s' <==> k in s || k == v
  }

  lemma Already(l: seq<int>, v: int, r: seq<int>, b: seq<int>, a: seq<int>)
    requires Sorted(b + (l + [v] + r) + a)
    ensures v in b + (l + [v] + r) + a && IsWith(b + (l + [v] + r) + a, b + (l + [v] + r) + a, v)
  {
    assert (l + [v] + r)[|l|] == v;
  }

  lemma Between(b: seq<int>, v: int, a: seq<int>)
    requires Sorted(b + a) && AllBelow(b, v) && AllAbove(a, v)
    ensures IsWith(b + [v] + a, b + a, v) && v !in b + a
  {
    SortedParts(b, a);
    SortedAround(b, v, a);
  }

  lemma SortedParts(b: seq<int>, a: seq<int>)
    requires Sorted(b + a)
    ensures Sorted(b) && Sorted(a)
  {
    assert forall i :: 0 <= i < |b| ==> b[i] == (b + a)[i];
    assert forall i :: 0 <= i < |a| ==> a[i] == (b + a)[|b| + i];
  }
}
