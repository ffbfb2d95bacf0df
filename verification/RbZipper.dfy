/** Binary trees of linked nodes: the mathematical tree, a zipper into it, and how both are laid out in node
    contents. */
module RbZipper {

  /** struct rb_node; the tagged parent word is held as two fields. */
  class Node {
    var left: Node?
    var right: Node?
    var parent: Node?
    var red: bool

    constructor ()
      ensures left == right == parent == null && red
    {
      left, right, parent, red := null, null, null, true;
    }
  }

  /** The contents of one node. */
  datatype Cell = Cell(left: Node?, right: Node?, parent: Node?, red: bool)

  type Memory = map<Node?, Cell>

  ghost function Read(s: set<Node>): (m: Memory)
    reads s
  {
    map n: Node? | n in s :: Cell(n.left, n.right, n.parent, n.red)
  }

  datatype Tree = Leaf | Branch(left: Tree, node: Node, red: bool, right: Tree)

  /** The ancestors of a hole, innermost first, each with the subtree on its other side. */
  datatype Path =
    | Top
    | GoLeft(node: Node, red: bool, right: Tree, up: Path)
    | GoRight(left: Tree, node: Node, red: bool, up: Path)

  ghost function Sibling(c: Path): Tree
    requires !c.Top?
  {
    if c.GoLeft? then c.right else c.left
  }

  ghost function Up(c: Path, t: Tree): Tree
    requires !c.Top?
  {
    if c.GoLeft? then Branch(t, c.node, c.red, c.right) else Branch(c.left, c.node, c.red, t)
  }

  ghost function Plug(c: Path, t: Tree): Tree {
    if c.Top? then t else Plug(c.up, Up(c, t))
  }

  ghost function Depth(c: Path): nat {
    if c.Top? then 0 else 1 + Depth(c.up)
  }

  ghost function Addr(t: Tree): Node? { if t.Leaf? then null else t.node }

  ghost function Hole(c: Path): Node? { if c.Top? then null else c.node }

  ghost function RootOf(c: Path, child: Node?): Node? {
    if c.Top? then child else RootOf(c.up, c.node)
  }

  ghost function Nodes(t: Tree): set<Node> {
    if t.Leaf? then {} else Nodes(t.left) + {t.node} + Nodes(t.right)
  }

  ghost function Above(c: Path): set<Node> {
    if c.Top? then {} else {c.node} + Nodes(Sibling(c)) + Above(c.up)
  }

  ghost predicate Distinct(t: Tree) {
    t.Branch? ==>
      && Distinct(t.left) && Distinct(t.right) && Nodes(t.left) !! Nodes(t.right)
      && t.node !in Nodes(t.left) && t.node !in Nodes(t.right)
  }

  ghost predicate DistinctPath(c: Path) {
    !c.Top? ==>
      && Distinct(Sibling(c)) && DistinctPath(c.up) && Nodes(Sibling(c)) !! Above(c.up)
      && c.node !in Nodes(Sibling(c)) && c.node !in Above(c.up)
  }

  ghost predicate IsTree(m: Memory, t: Tree, p: Node?) {
    t.Branch? ==>
      && t.node in m && m[t.node] == Cell(Addr(t.left), Addr(t.right), p, t.red)
      && IsTree(m, t.left, t.node) && IsTree(m, t.right, t.node)
  }

  ghost predicate IsPath(m: Memory, c: Path, child: Node?) {
    !c.Top? ==>
      && c.node in m && IsTree(m, Sibling(c), c.node) && IsPath(m, c.up, c.node)
      && m[c.node] == if c.GoLeft? then Cell(child, Addr(c.right), Hole(c.up), c.red)
                      else Cell(Addr(c.left), child, Hole(c.up), c.red)
  }

  /** The nodes are laid out as the tree `Plug(c, t)`, no node used twice. */
  ghost predicate At(m: Memory, root: Node?, c: Path, t: Tree) {
    && IsPath(m, c, Addr(t)) && IsTree(m, t, Hole(c)) && root == RootOf(c, Addr(t))
    && Distinct(t) && DistinctPath(c) && Nodes(t) !! Above(c)
  }

  lemma MoveUp(m: Memory, root: Node?, c: Path, t: Tree)
    requires !c.Top?
    ensures At(m, root, c, t) <==> At(m, root, c.up, Up(c, t))
    ensures Nodes(t) + Above(c) == Nodes(Up(c, t)) + Above(c.up)
  {
  }

  lemma OuterIsAbove(c: Path, child: Node?)
    requires !c.Top?
    ensures RootOf(c, child) in Above(c)
  {
    if !c.up.Top? {
      OuterIsAbove(c.up, c.node);
    }
  }

  lemma MoveToTop(m: Memory, root: Node?, c: Path, t: Tree)
    requires At(m, root, c, t)
    ensures At(m, root, Top, Plug(c, t))
    ensures Nodes(Plug(c, t)) == Nodes(t) + Above(c)
    decreases c
  {
    if !c.Top? {
      MoveUp(m, root, c, t);
      MoveToTop(m, root, c.up, Up(c, t));
    }
  }

  // ----- what may change without disturbing the layout

  ghost predicate Holds(m: Memory, n: Node?, cell: Cell) { n in m && m[n] == cell }

  /** Node n has been given the parent p. */
  ghost predicate Adopted(m: Memory, m': Memory, n: Node?, p: Node?) {
    n in m && n in m' && m'[n] == m[n].(parent := p)
  }

  /** The link that led to the hole of c leads to `child`. */
  ghost predicate Turned(m: Memory, m': Memory, c: Path, child: Node?) {
    !c.Top? ==>
      && c.node in m && c.node in m'
      && m'[c.node] == if c.GoLeft? then m[c.node].(left := child) else m[c.node].(right := child)
  }

  /** Memory is the same except at the four given nodes. */
  ghost predicate Same(m: Memory, m': Memory, x: Node?, y: Node?, b: Node?, p: Node?) {
    forall n :: n in m && n != x && n != y && n != b && n != p ==> n in m' && m'[n] == m[n]
  }

  lemma FrameTree(m: Memory, m': Memory, x: Node?, y: Node?, b: Node?, p: Node?, t: Tree, q: Node?)
    requires IsTree(m, t, q) && Same(m, m', x, y, b, p)
    requires x !in Nodes(t) && y !in Nodes(t) && b !in Nodes(t) && p !in Nodes(t)
    ensures IsTree(m', t, q)
  {
  }

  lemma FramePath(m: Memory, m': Memory, x: Node?, y: Node?, b: Node?, p: Node?, c: Path, child: Node?)
    requires IsPath(m, c, child) && Same(m, m', x, y, b, p)
    requires x !in Above(c) && y !in Above(c) && b !in Above(c) && p !in Above(c)
    ensures IsPath(m', c, child)
  {
    if !c.Top? {
      FrameTree(m, m', x, y, b, p, Sibling(c), c.node);
      FramePath(m, m', x, y, b, p, c.up, c.node);
    }
  }

  lemma Relinked(m: Memory, m': Memory, x: Node?, y: Node?, b: Node?, c: Path, child: Node?, child': Node?)
    requires IsPath(m, c, child) && DistinctPath(c) && Turned(m, m', c, child')
    requires Same(m, m', x, y, b, Hole(c)) && x !in Above(c) && y !in Above(c) && b !in Above(c)
    ensures IsPath(m', c, child')
  {
    if !c.Top? {
      FrameTree(m, m', x, y, b, c.node, Sibling(c), c.node);
      FramePath(m, m', x, y, b, c.node, c.up, c.node);
    }
  }

  lemma Reparented(m: Memory, m': Memory, x: Node?, y: Node?, p: Node?, t: Tree, q: Node?, q': Node?)
    requires IsTree(m, t, q) && Distinct(t) && (t.Branch? ==> Adopted(m, m', t.node, q'))
    requires Same(m, m', x, y, Addr(t), p) && x !in Nodes(t) && y !in Nodes(t) && p !in Nodes(t)
    ensures IsTree(m', t, q')
  {
    if t.Branch? {
      FrameTree(m, m', x, y, t.node, p, t.left, t.node);
      FrameTree(m, m', x, y, t.node, p, t.right, t.node);
    }
  }

  // ----- layout of the single steps

  /** The cells around a rotation lie apart, so that the writes to them do not meet. */
  ghost predicate Apart(x: Node?, y: Node?, b: Node?, p: Node?) {
    x != y && b != x && b != y && p != x && p != y && (p != null ==> p != b)
  }

  /** What a rotation of x under y does around them: b changes sides and the link in c follows. */
  ghost predicate Rotated(m: Memory, m': Memory, c: Path, x: Node?, y: Node?, b: Node?) {
    Same(m, m', x, y, b, Hole(c)) && (b != null ==> Adopted(m, m', b, x)) && Turned(m, m', c, y)
  }

  ghost function RotL(t: Tree): Tree
    requires t.Branch? && t.right.Branch?
  {
    Branch(Branch(t.left, t.node, t.red, t.right.left), t.right.node, t.right.red, t.right.right)
  }

  ghost function RotR(t: Tree): Tree
    requires t.Branch? && t.left.Branch?
  {
    Branch(t.left.left, t.left.node, t.left.red, Branch(t.left.right, t.node, t.red, t.right))
  }

  lemma RotatedNodes(t: Tree)
    ensures t.Branch? && t.right.Branch? ==> Nodes(RotL(t)) == Nodes(t)
    ensures t.Branch? && t.left.Branch? ==> Nodes(RotR(t)) == Nodes(t)
  {
  }

  lemma AroundLeft(m: Memory, root: Node?, c: Path, t: Tree)
    requires At(m, root, c, t) && t.Branch? && t.right.Branch?
    ensures
      var y, b := t.right.node, Addr(t.right.left);
      && Apart(t.node, y, b, Hole(c)) && y in m && m[y] == Cell(b, Addr(t.right.right), t.node, t.right.red)
      && (b != null ==> b in m)
  {
    assert IsTree(m, t.right, t.node) && Distinct(t.right);
    assert IsTree(m, t.right.left, t.right.node);
  }

  lemma AroundRight(m: Memory, root: Node?, c: Path, t: Tree)
    requires At(m, root, c, t) && t.Branch? && t.left.Branch?
    ensures
      var y, b := t.left.node, Addr(t.left.right);
      && Apart(t.node, y, b, Hole(c)) && y in m && m[y] == Cell(Addr(t.left.left), b, t.node, t.left.red)
      && (b != null ==> b in m)
  {
    assert IsTree(m, t.left, t.node) && Distinct(t.left);
    assert IsTree(m, t.left.right, t.left.node);
  }

  lemma RotatedLeft(m: Memory, m': Memory, root: Node?, c: Path, t: Tree)
    requires At(m, root, c, t) && t.Branch? && t.right.Branch?
    requires Rotated(m, m', c, t.node, t.right.node, Addr(t.right.left))
    requires Holds(m', t.node, Cell(Addr(t.left), Addr(t.right.left), t.right.node, t.red))
    requires Holds(m', t.right.node, Cell(t.node, Addr(t.right.right), Hole(c), t.right.red))
    ensures At(m', if c.Top? then t.right.node else root, c, RotL(t))
  {
    var x, y, b := t.node, t.right.node, t.right.left;
    var p := Hole(c);
    assert IsTree(m, t.right, x) && Distinct(t.right);
    FrameTree(m, m', x, y, Addr(b), p, t.left, x);
    FrameTree(m, m', x, y, Addr(b), p, t.right.right, y);
    Reparented(m, m', x, y, p, b, y, x);
    Relinked(m, m', x, y, Addr(b), c, x, y);
  }

  lemma RotatedRight(m: Memory, m': Memory, root: Node?, c: Path, t: Tree)
    requires At(m, root, c, t) && t.Branch? && t.left.Branch?
    requires Rotated(m, m', c, t.node, t.left.node, Addr(t.left.right))
    requires Holds(m', t.node, Cell(Addr(t.left.right), Addr(t.right), t.left.node, t.red))
    requires Holds(m', t.left.node, Cell(Addr(t.left.left), t.node, Hole(c), t.left.red))
    ensures At(m', if c.Top? then t.left.node else root, c, RotR(t))
  {
    var x, y, b := t.node, t.left.node, t.left.right;
    var p := Hole(c);
    assert IsTree(m, t.left, x) && Distinct(t.left);
    FrameTree(m, m', x, y, Addr(b), p, t.right, x);
    FrameTree(m, m', x, y, Addr(b), p, t.left.left, y);
    Reparented(m, m', x, y, p, b, y, x);
    Relinked(m, m', x, y, Addr(b), c, x, y);
  }

  lemma Recoloured(m: Memory, m': Memory, root: Node?, c: Path, t: Tree, red: bool)
    requires At(m, root, c, t) && t.Branch? && Same(m, m', t.node, null, null, null)
    requires t.node in m' && m'[t.node] == m[t.node].(red := red)
    ensures At(m', root, c, t.(red := red))
  {
    FrameTree(m, m', t.node, null, null, null, t.left, t.node);
    FrameTree(m, m', t.node, null, null, null, t.right, t.node);
    FramePath(m, m', t.node, null, null, null, c, t.node);
  }

  // ----- layout of linking in and taking out

  lemma Linked(m: Memory, m': Memory, root: Node?, c: Path, x: Node)
    requires At(m, root, c, Leaf) && x !in Above(c) && x !in m
    requires Holds(m', x, Cell(null, null, Hole(c), true))
    requires Same(m, m', Hole(c), null, null, null)
    requires Turned(m, m', c, x)
    ensures At(m', if c.Top? then x else root, c, Branch(Leaf, x, true, Leaf))
  {
    Relinked(m, m', null, null, null, c, null, x);
  }

  /** A node with at most one child d makes way for that child. */
  lemma Spliced(m: Memory, m': Memory, root: Node?, c: Path, t: Tree, d: Tree)
    requires At(m, root, c, t) && t.Branch? && ((t.left.Leaf? && d == t.right) || (t.right.Leaf? && d == t.left))
    requires Same(m, m', t.node, Addr(d), null, Hole(c))
    requires d.Branch? ==> Adopted(m, m', d.node, Hole(c))
    requires Turned(m, m', c, Addr(d))
    ensures At(m', if c.Top? then Addr(d) else root, c, d) && Nodes(d) + Above(c) == Nodes(t) + Above(c) - {t.node}
  {
    Reparented(m, m', t.node, null, Hole(c), d, t.node, Hole(c));
    Relinked(m, m', t.node, Addr(d), null, c, t.node, Addr(d));
  }

  /** A node outside the tree takes the place of the top of t, which has two children. */
  lemma Replaced(m: Memory, m': Memory, root: Node?, c: Path, t: Tree, s: Node)
    requires At(m, root, c, t) && t.Branch? && t.left.Branch? && t.right.Branch?
    requires s !in Nodes(t) && s !in Above(c) && s !in m
    requires Same(m, m', t.node, t.left.node, t.right.node, Hole(c))
    requires Holds(m', s, Cell(t.left.node, t.right.node, Hole(c), t.red))
    requires Adopted(m, m', t.left.node, s)
    requires Adopted(m, m', t.right.node, s)
    requires Turned(m, m', c, s)
    ensures At(m', if c.Top? then s else root, c, t.(node := s))
    ensures Nodes(t.(node := s)) + Above(c) == Nodes(t) + Above(c) - {t.node} + {s}
  {
    Reparented(m, m', t.node, t.right.node, Hole(c), t.left, t.node, s);
    Reparented(m, m', t.node, t.left.node, Hole(c), t.right, t.node, s);
    Relinked(m, m', t.node, t.left.node, t.right.node, c, t.node, s);
  }

  /** The right child, which has no left child, takes the place of the top of t. */
  lemma ReplacedBySon(m: Memory, m': Memory, root: Node?, c: Path, t: Tree)
    requires At(m, root, c, t) && t.Branch? && t.left.Branch? && t.right.Branch? && t.right.left.Leaf?
    requires Same(m, m', t.node, t.left.node, t.right.node, Hole(c))
    requires Holds(m', t.right.node, Cell(t.left.node, Addr(t.right.right), Hole(c), t.red))
    requires Adopted(m, m', t.left.node, t.right.node)
    requires Turned(m, m', c, t.right.node)
    ensures At(m', if c.Top? then t.right.node else root, c, Branch(t.left, t.right.node, t.red, t.right.right))
    ensures Nodes(Branch(t.left, t.right.node, t.red, t.right.right)) + Above(c) == Nodes(t) + Above(c) - {t.node}
  {
    assert IsTree(m, t.right, t.node) && Distinct(t.right);
    Reparented(m, m', t.node, t.right.node, Hole(c), t.left, t.node, t.right.node);
    FrameTree(m, m', t.node, t.left.node, t.right.node, Hole(c), t.right.right, t.right.node);
    Relinked(m, m', t.node, t.left.node, t.right.node, c, t.node, t.right.node);
  }

  // ----- longer moves of the focus

  /** The path d continued upwards by b. */
  ghost function Append(d: Path, b: Path): Path {
    if d.Top? then b else d.(up := Append(d.up, b))
  }

  lemma MoveAlong(m: Memory, root: Node?, d: Path, b: Path, t: Tree)
    ensures At(m, root, Append(d, b), t) <==> At(m, root, b, Plug(d, t))
    ensures Plug(Append(d, b), t) == Plug(b, Plug(d, t))
    ensures Nodes(t) + Above(Append(d, b)) == Nodes(Plug(d, t)) + Above(b)
    decreases d
  {
    if !d.Top? {
      var c := Append(d, b);
      MoveUp(m, root, c, t);
      assert Up(c, t) == Up(d, t) && c.up == Append(d.up, b);
      MoveAlong(m, root, d.up, b, Up(d, t));
    }
  }

  lemma Locate(m: Memory, root: Node?, c0: Path, t0: Tree, x: Node) returns (c: Path, t: Tree)
    requires At(m, root, c0, t0) && x in Nodes(t0)
    ensures At(m, root, c, t) && t.Branch? && t.node == x && Plug(c, t) == Plug(c0, t0)
    ensures Nodes(t) + Above(c) == Nodes(t0) + Above(c0)
    decreases t0
  {
    if t0.node == x {
      c, t := c0, t0;
    } else if x in Nodes(t0.left) {
      var d := GoLeft(t0.node, t0.red, t0.right, c0);
      MoveUp(m, root, d, t0.left);
      c, t := Locate(m, root, d, t0.left, x);
    } else {
      var d := GoRight(t0.left, t0.node, t0.red, c0);
      MoveUp(m, root, d, t0.right);
      c, t := Locate(m, root, d, t0.right, x);
    }
  }
}
